/** A TCP segment as bytes: what the sending socket leaves in the IP payload buffer, and
    what the receiving socket reads out of it. */
module TcpWire {
  import opened Words
  import opened Checksums
  import opened Internet
  import opened SocketModel
  import opened SocketStream

  const TCP_HEADER := 20
  const TCP_PROTOCOL := 6

  // ------------------------------------------------------------------ fields

  function Flags(b: byte): bv8 { b as bv8 }

  function FlagByte(opt: bv8): byte { opt as byte }

  lemma FlagsComeBack(opt: bv8)
    ensures Flags(FlagByte(opt)) == opt
  {
  }

  lemma QuadComesBack(data: seq<byte>, i: nat, x: nat)
    requires x < MOD32 && i + 3 < |data| && data[i..i + 4] == Net32(x)
    ensures Quad(data, i) == x
  {
    var s := data[i..i + 4];
    assert data[i] == s[0] && data[i + 1] == s[1] && data[i + 2] == s[2] && data[i + 3] == s[3];
    NetWord(data, i, x / MOD16);
    NetWord(data, i + 2, x % MOD16);
  }

  lemma WordComesBack(data: seq<byte>, i: nat, w: nat)
    requires w <= ONES && i + 1 < |data| && data[i..i + 2] == Net16(w)
    ensures Word(data, i) == w
  {
    var s := data[i..i + 2];
    assert data[i] == s[0] && data[i + 1] == s[1];
    NetWord(data, i, w);
  }

  /** The pseudo-header sum: length, protocol and both addresses. */
  function TcpPseudo(len: nat, a: Ip, b: Ip): nat {
    TCP_PROTOCOL + len + Word(a, 0) + Word(a, 2) + Word(b, 0) + Word(b, 2)
  }

  // ----------------------------------------------------- sending, on values

  /** The segment with `length` bytes of data that lies in the IP payload buffer. */
  function Emitted(b: seq<byte>, length: nat): Segment
    requires TCP_HEADER + length <= |b|
  {
    Segment(Flags(b[13]), Quad(b, 4), Quad(b, 8), Word(b, 14), b[12] / 16, b[TCP_HEADER..TCP_HEADER + length])
  }

  /** The first 16 bytes of a header. */
  function Start(localPort: word, remotePort: word, q: nat, a: nat, lead: byte, control: bv8,
                 window: word): (h: seq<byte>)
    requires q < MOD32 && a < MOD32
    ensures |h| == 16
  {
    Net16(localPort) + Net16(remotePort) + Net32(q) + Net32(a) + [lead] + [FlagByte(control)] + Net16(window)
  }

  /** What sendSegment writes reads back as the segment it means. */
  lemma HeaderComesBack(b: seq<byte>, localPort: word, remotePort: word, q: nat, a: nat, lead: byte, control: bv8,
                        window: word, length: nat)
    requires q < MOD32 && a < MOD32 && TCP_HEADER + length <= |b|
    requires b[..16] == Start(localPort, remotePort, q, a, lead, control, window)
    ensures Emitted(b, length) == Segment(control, q, a, window, lead / 16, b[TCP_HEADER..TCP_HEADER + length])
  {
    hide Word, Quad, Net16, Net32, Flags, FlagByte;
    var h := b[..16];
    assert h[4..8] == Net32(q) && h[8..12] == Net32(a) && h[14..16] == Net16(window);
    assert b[4..8] == h[4..8] && b[8..12] == h[8..12] && b[14..16] == h[14..16];
    assert b[12] == h[12] == lead && b[13] == h[13] == FlagByte(control);
    QuadComesBack(b, 4, q);
    QuadComesBack(b, 8, a);
    WordComesBack(b, 14, window);
    FlagsComeBack(control);
  }

  // --------------------------------------------------- receiving, on values

  /** What handleSegment reads from a segment's bytes before it acts; fewer than 16 bytes
      are not looked at. */
  function Received(d: seq<byte>, local: Ip, remote: Ip): Arrival
    requires 16 <= |d|
  {
    var words := d[12] / 16;
    Arrival(|d| >= 18 && Word(d, 16) == Checksum(d, 16, TcpPseudo(|d|, local, remote)),
            Flags(d[13]), Quad(d, 4), Quad(d, 8), Word(d, 14), words, |d|,
            if 4 * words <= |d| then d[4 * words..] else [],
            MssOption(d, words))
  }

  lemma ReceivedFlags(d: seq<byte>, local: Ip, remote: Ip)
    requires 16 <= |d|
    ensures Received(d, local, remote).opt == Flags(d[13])
  {
  }

  function MssOption(d: seq<byte>, words: nat): Option<nat> {
    if words == 6 && 24 <= |d| && Word(d, 20) == 0x0204 then Some(Word(d, 22)) else None
  }

  /** The first n bytes carry their checksum. */
  ghost predicate Sealed(b: seq<byte>, n: nat, from: Ip, to: Ip) {
    18 <= n <= |b| && Word(b, 16) == Checksum(b[..n], 16, TcpPseudo(n, from, to))
  }

  /** Carried intact, a segment with a header length of at least 5 words and no SYN is received
      as it was emitted, whichever of the two hosts computes the checksum. */
  lemma SegmentArrives(b: seq<byte>, length: nat, from: Ip, to: Ip)
    requires Sealed(b, TCP_HEADER + length, from, to) && b[12] / 16 >= 5 && !Has(Flags(b[13]), SYN)
    ensures Brings(Emitted(b, length), Received(b[..TCP_HEADER + length], to, from))
  {
    var n, words := TCP_HEADER + length, b[12] / 16;
    assert HeaderSize(Emitted(b, length)) == TCP_HEADER;
    hide Checksum, Flags, Has, MssOption, Word, Quad, HeaderSize;
    HeadFields(b, n);
    assert b[TCP_HEADER..TCP_HEADER + length] == b[TCP_HEADER..n];
    if 4 * words <= n {
      TailFields(b, n, 4 * words);
    }
  }

  /** The header fields lie in any prefix that holds a header. */
  lemma HeadFields(b: seq<byte>, n: nat)
    requires 18 <= n <= |b|
    ensures var d := b[..n];
      && Quad(d, 4) == Quad(b, 4) && Quad(d, 8) == Quad(b, 8) && Word(d, 14) == Word(b, 14)
      && Word(d, 16) == Word(b, 16) && d[12] == b[12] && d[13] == b[13]
  {
  }

  lemma TailFields(b: seq<byte>, n: nat, at: nat)
    requires TCP_HEADER <= at <= n <= |b|
    ensures b[..n][at..] == b[TCP_HEADER..n][at - TCP_HEADER..]
  {
    var x, y := b[..n][at..], b[TCP_HEADER..n][at - TCP_HEADER..];
    assert |x| == |y| && forall k :: 0 <= k < |x| ==> x[k] == b[at + k] == y[k];
  }

  /** A SYN brings its maximum segment size as well. */
  lemma SynArrives(b: seq<byte>, from: Ip, to: Ip)
    requires Sealed(b, TCP_HEADER + 4, from, to) && b[12] / 16 == 6 && Word(b, 20) == 0x0204 && Has(Flags(b[13]), SYN)
    ensures Received(b[..TCP_HEADER + 4], to, from) == Wire(Emitted(b, 0)).(mss := Some(Word(b, 22)))
  {
    SynOnWire(Emitted(b, 0));
    hide Checksum, Flags, Has, Word, Quad, Wire;
    HeadFields(b, TCP_HEADER + 4);
    OptionFields(b);
    assert b[..TCP_HEADER + 4][24..] == [];
  }

  lemma SynOnWire(g: Segment)
    requires Has(g.opt, SYN) && g.words == 6 && g.payload == []
    ensures Wire(g) == Arrival(true, g.opt, g.seqNo, g.ackNo, g.window, 6, 24, [], None)
  {
    hide Has;
  }

  lemma OptionFields(b: seq<byte>)
    requires 24 <= |b|
    ensures Word(b[..24], 20) == Word(b, 20) && Word(b[..24], 22) == Word(b, 22)
  {
  }

  /** The frame in which IP and Ethernet carry the first n bytes of the IP payload buffer. */
  function SegmentFrame(toMac: Mac, fromMac: Mac, from: Ip, to: Ip, b: seq<byte>, n: nat): seq<byte>
    requires n <= |b| && IP_HEADER + n <= ONES
  {
    EthernetHeader(toMac, fromMac, IP_PROTOCOL) + IpHeader(from, to, TCP_PROTOCOL, IP_HEADER + n) + b[..n]
  }

  /** From socket to socket through all the layers: a frame that is not damaged, padded or not,
      in a larger receive buffer, brings the peer the segment the socket emitted. */
  lemma SegmentCrosses(toMac: Mac, fromMac: Mac, from: Ip, to: Ip, broadcast: Ip, b: seq<byte>, length: nat,
                       pad: seq<byte>, rest: seq<byte>)
    requires Sealed(b, TCP_HEADER + length, from, to) && b[12] / 16 >= 5 && !Has(Flags(b[13]), SYN)
    requires ETHERNET_HEADER + IP_HEADER + TCP_HEADER + length + |pad| <= ONES
    ensures var f := SegmentFrame(toMac, fromMac, from, to, b, TCP_HEADER + length);
      var p := ReceiveFrame(f + pad + rest, |f| + |pad|);
      && p.Some? && ReceiveIp(p.value, to, broadcast).Some?
      && (var q := ReceiveIp(p.value, to, broadcast).value;
          && q.from == from && q.protocol == TCP_PROTOCOL && 16 <= |q.payload|
          && Brings(Emitted(b, length), Received(q.payload, to, q.from)))
  {
    var n := TCP_HEADER + length;
    assert n <= |b|;
    hide Received, Emitted, Checksum, Sealed, Has, Flags;
    var ip := IpHeader(from, to, TCP_PROTOCOL, IP_HEADER + n);
    var eth := EthernetHeader(toMac, fromMac, IP_PROTOCOL);
    var p := ip + b[..n] + pad;
    var f := SegmentFrame(toMac, fromMac, from, to, b, n);
    assert f + pad + rest == eth + p + rest;
    FrameReceived(toMac, fromMac, p, rest);
    IpDelivers(from, to, TCP_PROTOCOL, b[..n], pad, broadcast);
    SegmentArrives(b, length, from, to);
  }

  // ---------------------------------------------------------------- checksum

  /** The control bits of section 3.1 of RFC 793 as numbers. */
  lemma ControlBits()
    ensures FlagByte(FIN) == 1 && FlagByte(SYN) == 2 && FlagByte(RST) == 4 && FlagByte(PSH) == 8 && FlagByte(ACK) == 16
  {
  }

  lemma PseudoIsHeader(d: seq<byte>, from: Ip, to: Ip)
    requires |d| <= ONES
    ensures OnesSum(PseudoHeader(from, to, 6, |d|) + d, 0) == OnesSum(d, TcpPseudo(|d|, from, to))
    ensures OnesSum(PseudoHeader(from, to, 6, |d|) + d, 0) == OnesSum(d, TcpPseudo(|d|, to, from))
  {
    hide OnesSum, PseudoHeader, Word;
    PseudoCounted(from, to, 6, d, TcpPseudo(|d|, from, to));
  }

  /** All words of pseudo-header and segment sum to 0xFFFF. */
  ghost predicate SumsUp(d: seq<byte>, from: Ip, to: Ip) {
    |d| <= ONES && OnesSum(PseudoHeader(from, to, 6, |d|) + d, 0) == 0xFFFF
  }

  /** Exactly which segments are received as valid: those with a checksum that makes the words of
      pseudo-header and segment sum to 0xFFFF; only 0xFFFF in its place is never accepted. */
  lemma ValidIff(d: seq<byte>, local: Ip, remote: Ip)
    requires 16 <= |d| <= ONES
    ensures Received(d, local, remote).valid <==>
              |d| >= 18 && Word(d, 16) != 0xFFFF && SumsUp(d, remote, local)
  {
    if |d| >= 18 {
      VerifiesIff(d, 16, TcpPseudo(|d|, local, remote));
      PseudoIsHeader(d, remote, local);
    }
    hide WordSum, Fold, OnesSum, PseudoHeader, Checksum;
  }

  /** A damaged segment: one aligned word changed on the way makes it invalid, except a word other
      than the checksum changed between 0x0000 and 0xFFFF. */
  lemma AlteredSegmentIff(b: seq<byte>, n: nat, from: Ip, to: Ip, j: nat, w: nat)
    requires Sealed(b, n, from, to) && j % 2 == 0 && j + 1 < n && w <= ONES && w != Word(b, j)
    ensures Received(Altered(b[..n], j, w), to, from).valid <==>
              j != 16 && ((Word(b, j) == 0 && w == 0xFFFF) || (Word(b, j) == 0xFFFF && w == 0))
  {
    var d := b[..n];
    assert Word(d, 16) == Word(b, 16) && Word(d, j) == Word(b, j);
    AlteredVerifiesIff(d, j, w, 16, TcpPseudo(n, from, to));
    assert TcpPseudo(n, from, to) == TcpPseudo(n, to, from);
    hide Checksum, Altered, Word, WordSum;
  }

  /** A segment whose words, with those of its pseudo-header, do not sum to 0xFFFF brings nothing
      but a window. */
  lemma DamagedBringsWindow(s: Sock, d: seq<byte>, local: Ip, remote: Ip, now: nat)
    requires 16 <= |d| <= ONES && !SumsUp(d, remote, local)
    ensures HandleSegment(s, Received(d, local, remote), now) == s.(remoteWindow := Word(d, 14))
  {
    ValidIff(d, local, remote);
    hide OnesSum, PseudoHeader, Checksum, Flags, Quad, MssOption;
  }

  lemma SealedSums(b: seq<byte>, n: nat, from: Ip, to: Ip)
    requires Sealed(b, n, from, to) && n <= ONES
    ensures SumsUp(b[..n], from, to)
  {
    var d := b[..n];
    assert Word(d, 16) == Word(b, 16);
    VerifiesIff(d, 16, TcpPseudo(n, from, to));
    PseudoIsHeader(d, from, to);
    hide WordSum, Fold, OnesSum, PseudoHeader, Checksum;
  }
}
