/** The Ethernet, IP and UDP layers: what is on the wire, and what the receiving
    layers make of it. */
module Internet {
  import opened Words
  import opened Checksums

  const ETHERNET_HEADER := 14
  const IP_HEADER := 20
  const UDP_HEADER := 8
  const IP_PROTOCOL := 0x0800
  const UDP_PROTOCOL := 0x11

  // ------------------------------------------------------------ what is sent

  function EthernetHeader(to: Mac, from: Mac, protocol: nat): (h: seq<byte>)
    requires protocol <= ONES
    ensures |h| == ETHERNET_HEADER
  {
    to + from + Net16(protocol)
  }

  /** The IP header up to the checksum: version, length, flags, time to live, protocol. */
  function IpStart(protocol: byte, total: nat): (h: seq<byte>)
    requires total <= ONES
    ensures |h| == 10
  {
    [0x45, 0] + Net16(total) + Net16(0) + Net16(0x4000) + [64] + [protocol]
  }

  /** The IP header, with `sum` in its checksum field. */
  function IpFields(from: Ip, to: Ip, protocol: byte, total: nat, sum: nat): (h: seq<byte>)
    requires total <= ONES && sum <= ONES
    ensures |h| == IP_HEADER
  {
    IpStart(protocol, total) + Net16(sum) + (from + to)
  }

  function IpHeader(from: Ip, to: Ip, protocol: byte, total: nat): (h: seq<byte>)
    requires total <= ONES
    ensures |h| == IP_HEADER
  {
    IpFields(from, to, protocol, total, Checksum(IpFields(from, to, protocol, total, 0), 10, 0))
  }

  function UdpFields(fromPort: nat, toPort: nat, total: nat, sum: nat): (h: seq<byte>)
    requires fromPort <= ONES && toPort <= ONES && total <= ONES && sum <= ONES
    ensures |h| == UDP_HEADER
  {
    Net16(fromPort) + Net16(toPort) + Net16(total) + Net16(sum)
  }

  /** The sum of the pseudo-header: length, protocol and both addresses. */
  function Pseudo(len: nat, a: Ip, b: Ip): nat {
    len + UDP_PROTOCOL + Word(a, 0) + Word(a, 2) + Word(b, 0) + Word(b, 2)
  }

  function Datagram(from: Ip, to: Ip, fromPort: nat, toPort: nat, payload: seq<byte>): (d: seq<byte>)
    requires fromPort <= ONES && toPort <= ONES && UDP_HEADER + |payload| <= ONES
    ensures |d| == UDP_HEADER + |payload|
  {
    var n := UDP_HEADER + |payload|;
    UdpFields(fromPort, toPort, n,
              Checksum(UdpFields(fromPort, toPort, n, 0) + payload, 6, Pseudo(n, from, to))) + payload
  }

  /** The whole Ethernet frame that carries a datagram. */
  function Frame(toMac: Mac, fromMac: Mac, from: Ip, to: Ip, fromPort: nat, toPort: nat, payload: seq<byte>): seq<byte>
    requires fromPort <= ONES && toPort <= ONES && IP_HEADER + UDP_HEADER + |payload| <= ONES
  {
    EthernetHeader(toMac, fromMac, IP_PROTOCOL)
    + IpHeader(from, to, UDP_PROTOCOL, IP_HEADER + UDP_HEADER + |payload|)
    + Datagram(from, to, fromPort, toPort, payload)
  }

  // -------------------------------------------------------- what is received

  /** What an OffsetBuffer at `at` with the given length shows of p. */
  function Slice(p: seq<byte>, at: nat, len: nat): seq<byte> {
    if at > |p| then [] else if 0 < len < |p| - at then p[at..at + len] else p[at..]
  }

  datatype Packet = Packet(from: Ip, protocol: byte, payload: seq<byte>)

  datatype Delivery = Delivery(from: Ip, fromPort: nat, toPort: nat, payload: seq<byte>)

  /** processFrame: the payload of a frame of `len` bytes if it is an IP frame. */
  function ReceiveFrame(buffer: seq<byte>, len: nat): Option<seq<byte>> {
    if len > 0 && |buffer| >= ETHERNET_HEADER && Word(buffer, 12) == IP_PROTOCOL
    then Some(Slice(buffer, ETHERNET_HEADER, (len - ETHERNET_HEADER) % MOD16))
    else None
  }

  predicate HeaderIntact(p: seq<byte>)
    requires |p| >= IP_HEADER
  {
    Word(p, 10) == Checksum(p[..IP_HEADER], 10, 0)
  }

  /** IPHandler::handlePayload up to the call of the protocol handler. */
  function ReceiveIp(p: seq<byte>, own: Ip, broadcast: Ip): Option<Packet> {
    if |p| < IP_HEADER || !HeaderIntact(p) then None
    else
      var len := Word(p, 2);
      if |p| < len || (p[16..20] != own && p[16..20] != broadcast) then None
      else Some(Packet(p[12..16], p[9], Slice(p, IP_HEADER, (len - IP_HEADER) % MOD16)))
  }

  /** UDPHandler::handlePacket up to the call of the receiver. */
  function ReceiveUdp(from: Ip, d: seq<byte>, own: Ip, ports: set<nat>): Option<Delivery> {
    if |d| < UDP_HEADER || Word(d, 4) > |d| then None
    else if Word(d, 6) != 0 && Word(d, 6) != Checksum(d, 6, Pseudo(|d|, own, from)) then None
    else if Word(d, 2) !in ports then None
    else Some(Delivery(from, Word(d, 0), Word(d, 2), Slice(d, UDP_HEADER, (Word(d, 4) - UDP_HEADER) % MOD16)))
  }

  /** A host: its addresses and the ports it listens on. */
  datatype Host = Host(ip: Ip, broadcast: Ip, ports: set<nat>)

  function ReceivePayload(p: seq<byte>, host: Host): Option<Delivery> {
    match ReceiveIp(p, host.ip, host.broadcast)
    case None => None
    case Some(q) => if q.protocol != UDP_PROTOCOL then None else ReceiveUdp(q.from, q.payload, host.ip, host.ports)
  }

  function Receive(buffer: seq<byte>, len: nat, host: Host): Option<Delivery> {
    match ReceiveFrame(buffer, len)
    case None => None
    case Some(p) => ReceivePayload(p, host)
  }

  // ------------------------------------------------------------- round trips

  lemma NetWord(s: seq<byte>, i: nat, w: nat)
    requires w <= ONES && i + 1 < |s| && s[i] == w / 256 && s[i + 1] == w % 256
    ensures Word(s, i) == w
  {
  }

  lemma UdpIntact(from: Ip, to: Ip, fromPort: nat, toPort: nat, payload: seq<byte>)
    requires fromPort <= ONES && toPort <= ONES && UDP_HEADER + |payload| <= ONES
    ensures var d := Datagram(from, to, fromPort, toPort, payload);
      && Word(d, 0) == fromPort && Word(d, 2) == toPort && Word(d, 4) == |d|
      && Word(d, 6) == Checksum(d, 6, Pseudo(|d|, to, from))
      && d[UDP_HEADER..] == payload
  {
    var n := UDP_HEADER + |payload|;
    var blank := UdpFields(fromPort, toPort, n, 0) + payload;
    var c := Checksum(blank, 6, Pseudo(n, from, to));
    var d := Datagram(from, to, fromPort, toPort, payload);
    assert Stamped(blank, 6, c) == d;
    StampedVerifies(blank, 6, Pseudo(n, from, to));
    NetWord(d, 0, fromPort);
    NetWord(d, 2, toPort);
    NetWord(d, 4, n);
  }

  lemma IpIntact(from: Ip, to: Ip, protocol: byte, total: nat)
    requires total <= ONES
    ensures var h := IpHeader(from, to, protocol, total);
      HeaderIntact(h) && Word(h, 2) == total && h[12..16] == from && h[16..20] == to && h[9] == protocol
  {
    var blank := IpFields(from, to, protocol, total, 0);
    var c := Checksum(blank, 10, 0);
    var h := IpHeader(from, to, protocol, total);
    assert Stamped(blank, 10, c) == h;
    StampedVerifies(blank, 10, 0);
    assert h[..IP_HEADER] == h;
    NetWord(h, 2, total);
  }

  /** The IP layer accepts a packet of ours even when bytes follow it in the frame. */
  lemma IpDelivers(from: Ip, to: Ip, protocol: byte, payload: seq<byte>, pad: seq<byte>, broadcast: Ip)
    requires payload != [] && IP_HEADER + |payload| <= ONES
    ensures ReceiveIp(IpHeader(from, to, protocol, IP_HEADER + |payload|) + payload + pad, to, broadcast)
            == Some(Packet(from, protocol, payload))
  {
    var h := IpHeader(from, to, protocol, IP_HEADER + |payload|);
    var p := h + payload + pad;
    IpIntact(from, to, protocol, IP_HEADER + |payload|);
    assert p[..IP_HEADER] == h == h[..IP_HEADER];
    assert Word(p, 10) == Word(h, 10) && Word(p, 2) == Word(h, 2);
    assert p[12..16] == from && p[16..20] == to && p[9] == protocol;
    assert (Word(p, 2) - IP_HEADER) % MOD16 == |payload|;
    assert p[IP_HEADER..IP_HEADER + |payload|] == payload;
    assert pad == [] ==> p[IP_HEADER..] == payload;
  }

  lemma UdpDelivers(from: Ip, to: Ip, fromPort: nat, toPort: nat, payload: seq<byte>, ports: set<nat>)
    requires fromPort <= ONES && toPort in ports && toPort <= ONES && UDP_HEADER + |payload| <= ONES
    ensures ReceiveUdp(from, Datagram(from, to, fromPort, toPort, payload), to, ports)
            == Some(Delivery(from, fromPort, toPort, payload))
  {
    UdpIntact(from, to, fromPort, toPort, payload);
    var d := Datagram(from, to, fromPort, toPort, payload);
    assert d[UDP_HEADER..] == payload;
  }

  /** A datagram of any length, carried in an Ethernet frame that may be padded and lies in
      a larger receive buffer, passes both checksums at the host that owns the destination
      address and reaches the listener with its payload, source address and source port. */
  lemma DatagramArrives(toMac: Mac, fromMac: Mac, from: Ip, fromPort: nat, toPort: nat, payload: seq<byte>,
                        pad: seq<byte>, rest: seq<byte>, host: Host)
    requires fromPort <= ONES && toPort <= ONES && toPort in host.ports
    requires ETHERNET_HEADER + IP_HEADER + UDP_HEADER + |payload| + |pad| <= ONES
    ensures var f := Frame(toMac, fromMac, from, host.ip, fromPort, toPort, payload);
      Receive(f + pad + rest, |f| + |pad|, host) == Some(Delivery(from, fromPort, toPort, payload))
  {
    hide Datagram, IpHeader, EthernetHeader, ReceiveIp, ReceiveUdp, ReceiveFrame, Receive;
    var d := Datagram(from, host.ip, fromPort, toPort, payload);
    var ip := IpHeader(from, host.ip, UDP_PROTOCOL, IP_HEADER + |d|);
    var eth := EthernetHeader(toMac, fromMac, IP_PROTOCOL);
    var f := Frame(toMac, fromMac, from, host.ip, fromPort, toPort, payload);
    assert f == eth + ip + d;
    var p := ip + d + pad;
    assert f + pad + rest == eth + p + rest;
    FrameReceived(toMac, fromMac, p, rest);
    IpDelivers(from, host.ip, UDP_PROTOCOL, d, pad, host.broadcast);
    UdpDelivers(from, host.ip, fromPort, toPort, payload, host.ports);
    PassesUp(f + pad + rest, |f| + |pad|, p, d, from, host);
  }

  lemma PassesUp(buffer: seq<byte>, len: nat, p: seq<byte>, d: seq<byte>, from: Ip, host: Host)
    requires ReceiveFrame(buffer, len) == Some(p)
    requires ReceiveIp(p, host.ip, host.broadcast) == Some(Packet(from, UDP_PROTOCOL, d))
    ensures Receive(buffer, len, host) == ReceiveUdp(from, d, host.ip, host.ports)
  {
  }

  lemma FrameReceived(toMac: Mac, fromMac: Mac, p: seq<byte>, rest: seq<byte>)
    requires 0 < |p| && ETHERNET_HEADER + |p| <= ONES
    ensures var eth := EthernetHeader(toMac, fromMac, IP_PROTOCOL);
      ReceiveFrame(eth + p + rest, |eth| + |p|) == Some(p)
  {
    var b := EthernetHeader(toMac, fromMac, IP_PROTOCOL) + p + rest;
    NetWord(b, 12, IP_PROTOCOL);
    assert b[ETHERNET_HEADER..ETHERNET_HEADER + |p|] == p;
    assert rest == [] ==> b[ETHERNET_HEADER..] == p;
  }

  // ---------------------------------------------------------- damaged headers

  /** h with the word at j replaced. */
  function Altered(h: seq<byte>, j: nat, w: nat): (r: seq<byte>)
    requires j + 1 < |h| && w <= ONES
    ensures |r| == |h|
  {
    Stamped(h, j, w)
  }

  lemma {:induction false} AlteredSum(h: seq<byte>, j: nat, w: nat, skip: nat, i: nat)
    requires j + 1 < |h| && w <= ONES && j % 2 == 0 && i % 2 == 0
    ensures j < i || j == skip ==> WordSum(Altered(h, j, w), skip, i) == WordSum(h, skip, i)
    ensures i <= j && j != skip ==> WordSum(Altered(h, j, w), skip, i) + Word(h, j) == WordSum(h, skip, i) + w
    decreases |h| - i
  {
    if i < |h| {
      AlteredSum(h, j, w, skip, i + 2);
    }
  }

  lemma {:induction false} WordInSum(h: seq<byte>, skip: nat, i: nat, k: nat)
    requires k < |h| && i <= k && k % 2 == i % 2 && k != skip
    ensures WordSum(h, skip, i) >= Word(h, k)
    decreases |h| - i
  {
    if i < k {
      WordInSum(h, skip, i + 2, k);
    }
  }

  lemma SameResidue(v: nat, w: nat)
    requires v <= ONES && w <= ONES && v != w
    ensures v % ONES == w % ONES <==> (v == 0 && w == ONES) || (v == ONES && w == 0)
  {
  }

  lemma ResidueOfChange(s: nat, t: nat, v: nat, w: nat)
    requires t + v == s + w && v <= ONES && w <= ONES
    ensures s % ONES == t % ONES <==> v % ONES == w % ONES
  {
  }

  /** Changing one aligned word of anything that carries its checksum is noticed, except a word
      other than the checksum changed between 0x0000 and 0xFFFF. */
  lemma AlteredVerifiesIff(h: seq<byte>, j: nat, w: nat, at: nat, pseudo: nat)
    requires j + 1 < |h| && at + 1 < |h| && j % 2 == 0 && at % 2 == 0 && w <= ONES
    requires pseudo + WordSum(h, at, 0) > 0 && pseudo + WordSum(Altered(h, j, w), at, 0) > 0
    requires w != Word(h, j) && Word(h, at) == Checksum(h, at, pseudo)
    ensures var r := Altered(h, j, w);
      Word(r, at) == Checksum(r, at, pseudo) <==>
        j != at && ((Word(h, j) == 0 && w == 0xFFFF) || (Word(h, j) == 0xFFFF && w == 0))
  {
    var r := Altered(h, j, w);
    AlteredSum(h, j, w, at, 0);
    StampedWord(h, j, w);
    var s, t := pseudo + WordSum(h, at, 0), pseudo + WordSum(r, at, 0);
    assert Checksum(h, at, pseudo) == ONES - Fold(s) && Checksum(r, at, pseudo) == ONES - Fold(t);
    hide WordSum, Fold, Checksum, Word, Stamped;
    if j != at {
      FoldsDifferIff(s, t, Word(h, j), w);
      OtherWord(h, j, w, at);
    }
  }

  lemma FoldsDifferIff(s: nat, t: nat, v: nat, w: nat)
    requires s > 0 && t > 0 && t + v == s + w && v <= ONES && w <= ONES && v != w
    ensures Fold(s) == Fold(t) <==> (v == 0 && w == 0xFFFF) || (v == 0xFFFF && w == 0)
  {
    FoldsAgree(s, t);
    ResidueOfChange(s, t, v, w);
    SameResidue(v, w);
    hide Fold;
  }

  lemma OtherWord(h: seq<byte>, j: nat, w: nat, at: nat)
    requires j + 1 < |h| && at + 1 < |h| && j % 2 == 0 && at % 2 == 0 && w <= ONES && j != at
    ensures Word(Altered(h, j, w), at) == Word(h, at)
  {
    var r := Altered(h, j, w);
    assert r[at] == h[at] && r[at + 1] == h[at + 1];
  }

  /** Changing one aligned word of a header of ours is noticed, except a word other than the
      checksum changed between 0x0000 and 0xFFFF. */
  lemma AlteredHeader(from: Ip, to: Ip, protocol: byte, total: nat, j: nat, w: nat)
    requires total <= ONES && j % 2 == 0 && j < IP_HEADER && w <= ONES
    requires w != Word(IpHeader(from, to, protocol, total), j)
    ensures var h := IpHeader(from, to, protocol, total);
      HeaderIntact(Altered(h, j, w)) <==>
        j != 10 && ((Word(h, j) == 0 && w == ONES) || (Word(h, j) == ONES && w == 0))
  {
    var h := IpHeader(from, to, protocol, total);
    var r := Altered(h, j, w);
    IpIntact(from, to, protocol, total);
    assert h[..IP_HEADER] == h && r[..IP_HEADER] == r;
    assert h[0] == 0x45 && h[6] == 0x40;
    NeverAllZero(h, r, j);
    hide WordSum, Fold, IpHeader;
    AlteredVerifiesIff(h, j, w, 10, 0);
  }

  /** The version and the flags keep the sum away from zero. */
  lemma NeverAllZero(h: seq<byte>, r: seq<byte>, j: nat)
    requires |h| == |r| == IP_HEADER && h[0] == 0x45 && h[6] == 0x40
    requires forall i :: 0 <= i < IP_HEADER && i != j && i != j + 1 ==> r[i] == h[i]
    ensures WordSum(h, 10, 0) > 0 && (j % 2 == 0 ==> WordSum(r, 10, 0) > 0)
  {
    WordInSum(h, 10, 0, 0);
    WordInSum(r, 10, 0, 0);
    WordInSum(r, 10, 0, 6);
  }

  /** Such a packet is discarded, whatever follows the header. */
  lemma AlteredIsDiscarded(from: Ip, to: Ip, protocol: byte, total: nat, j: nat, w: nat,
                           rest: seq<byte>, own: Ip, broadcast: Ip)
    requires total <= ONES && j % 2 == 0 && j < IP_HEADER && w <= ONES
    requires var v := Word(IpHeader(from, to, protocol, total), j);
      w != v && (j == 10 || !((v == 0 && w == ONES) || (v == ONES && w == 0)))
    ensures ReceiveIp(Altered(IpHeader(from, to, protocol, total), j, w) + rest, own, broadcast) == None
  {
    AlteredHeader(from, to, protocol, total, j, w);
    var r := Altered(IpHeader(from, to, protocol, total), j, w);
    assert (r + rest)[..IP_HEADER] == r == r[..IP_HEADER];
  }

  // ------------------------------------------------------- the pseudo-header

  /** The pseudo-header of section 3.1 of RFC 793, which RFC 768 has as well: both addresses, a
      zero, the protocol and the length. */
  function PseudoHeader(from: Ip, to: Ip, protocol: byte, len: nat): (h: seq<byte>)
    requires len <= ONES
    ensures |h| == 12
  {
    from + to + [0, protocol] + Net16(len)
  }

  lemma PseudoSum(from: Ip, to: Ip, protocol: byte, len: nat)
    requires len <= ONES
    ensures WordSum(PseudoHeader(from, to, protocol, len), -1, 0) ==
              Word(from, 0) + Word(from, 2) + Word(to, 0) + Word(to, 2) + protocol + len
  {
    var h := PseudoHeader(from, to, protocol, len);
    assert Word(h, 0) == Word(from, 0) && Word(h, 2) == Word(from, 2);
    assert Word(h, 4) == Word(to, 0) && Word(h, 6) == Word(to, 2) && Word(h, 8) == protocol as int;
    NetWord(h, 10, len);
    hide Word;
    assert WordSum(h, -1, 12) == 0 && WordSum(h, -1, 10) == Word(h, 10);
    assert WordSum(h, -1, 8) == Word(h, 8) + Word(h, 10);
    assert WordSum(h, -1, 6) == Word(h, 6) + WordSum(h, -1, 8) && WordSum(h, -1, 4) == Word(h, 4) + WordSum(h, -1, 6);
    assert WordSum(h, -1, 2) == Word(h, 2) + WordSum(h, -1, 4);
  }

  lemma {:induction false} JoinedSum(x: seq<byte>, y: seq<byte>, i: nat)
    requires |x| % 2 == 0 && i % 2 == 0 && i <= |x|
    ensures WordSum(x + y, -1, i) == WordSum(x, -1, i) + WordSum(y, -1, 0)
    decreases |x| - i
  {
    if i < |x| {
      assert Word(x + y, i) == Word(x, i);
      JoinedSum(x, y, i + 2);
    } else {
      ShiftedSum(x, y, 0);
    }
  }

  lemma {:induction false} ShiftedSum(x: seq<byte>, y: seq<byte>, i: nat)
    requires |x| % 2 == 0 && i % 2 == 0
    ensures WordSum(x + y, -1, |x| + i) == WordSum(y, -1, i)
    decreases |y| - i
  {
    if i < |y| {
      assert Word(x + y, |x| + i) == Word(y, i);
      ShiftedSum(x, y, i + 2);
    }
  }

  /** Counting the pseudo-header in as bytes, or as a number beforehand, is the same. */
  lemma PseudoCounted(from: Ip, to: Ip, protocol: byte, d: seq<byte>, pseudo: nat)
    requires |d| <= ONES
    requires pseudo == |d| + protocol + Word(from, 0) + Word(from, 2) + Word(to, 0) + Word(to, 2)
    ensures OnesSum(PseudoHeader(from, to, protocol, |d|) + d, 0) == OnesSum(d, pseudo)
  {
    PseudoSum(from, to, protocol, |d|);
    JoinedSum(PseudoHeader(from, to, protocol, |d|), d, 0);
    hide WordSum, Fold, PseudoHeader;
  }

  // ------------------------------------------------ where everything lies

  /** A frame as the Ethernet standard lays it out: destination, source, type, payload. */
  predicate EthernetLaidOut(f: seq<byte>, to: Mac, from: Mac, protocol: nat, payload: seq<byte>) {
    && |f| == 14 + |payload|
    && f[..6] == to && f[6..12] == from && Word(f, 12) == protocol
    && f[14..] == payload
  }

  /** A packet as section 3.1 of RFC 791 lays it out: version 4 and five words of header, total
      length, not fragmented, 64 hops, the protocol, a header whose words sum to 0xFFFF, and both
      addresses. */
  predicate IpLaidOut(p: seq<byte>, from: Ip, to: Ip, protocol: byte, payload: seq<byte>) {
    && |p| == 20 + |payload|
    && p[0] == 0x45 && p[1] == 0 && Word(p, 2) == |p| && Word(p, 4) == 0 && Word(p, 6) == 0x4000
    && p[8] == 64 && p[9] == protocol && OnesSum(p[..20], 0) == 0xFFFF
    && p[12..16] == from && p[16..20] == to
    && p[20..] == payload
  }

  /** A datagram as RFC 768 lays it out: ports, length, a checksum that makes the words of
      pseudo-header and datagram sum to 0xFFFF, payload. */
  predicate UdpLaidOut(d: seq<byte>, from: Ip, to: Ip, fromPort: nat, toPort: nat, payload: seq<byte>) {
    && |d| == 8 + |payload| <= ONES
    && Word(d, 0) == fromPort && Word(d, 2) == toPort && Word(d, 4) == |d|
    && OnesSum(PseudoHeader(from, to, 17, |d|) + d, 0) == 0xFFFF
    && d[8..] == payload
  }

  lemma EthernetLayout(to: Mac, from: Mac, protocol: nat, payload: seq<byte>)
    requires protocol <= ONES
    ensures EthernetLaidOut(EthernetHeader(to, from, protocol) + payload, to, from, protocol, payload)
  {
    var f := EthernetHeader(to, from, protocol) + payload;
    NetWord(f, 12, protocol);
  }

  lemma IpLayout(from: Ip, to: Ip, protocol: byte, payload: seq<byte>)
    requires IP_HEADER + |payload| <= ONES
    ensures IpLaidOut(IpHeader(from, to, protocol, IP_HEADER + |payload|) + payload, from, to, protocol, payload)
  {
    var total := IP_HEADER + |payload|;
    var h := IpHeader(from, to, protocol, total);
    var p := h + payload;
    IpFixed(from, to, protocol, total);
    IpSums(from, to, protocol, total);
    IpIntact(from, to, protocol, total);
    hide IpHeader;
    assert p[..20] == h && p[12..16] == from && p[16..20] == to;
  }

  lemma IpFixed(from: Ip, to: Ip, protocol: byte, total: nat)
    requires total <= ONES
    ensures var h := IpHeader(from, to, protocol, total);
      h[0] == 0x45 && h[1] == 0 && Word(h, 4) == 0 && Word(h, 6) == 0x4000 && h[8] == 64
  {
    hide Checksum;
  }

  lemma IpSums(from: Ip, to: Ip, protocol: byte, total: nat)
    requires total <= ONES
    ensures OnesSum(IpHeader(from, to, protocol, total), 0) == 0xFFFF
  {
    var blank := IpFields(from, to, protocol, total, 0);
    assert Stamped(blank, 10, Checksum(blank, 10, 0)) == IpHeader(from, to, protocol, total);
    StampedVerifies(blank, 10, 0);
  }

  lemma UdpLayout(from: Ip, to: Ip, fromPort: nat, toPort: nat, payload: seq<byte>)
    requires fromPort <= ONES && toPort <= ONES && UDP_HEADER + |payload| <= ONES
    ensures UdpLaidOut(Datagram(from, to, fromPort, toPort, payload), from, to, fromPort, toPort, payload)
  {
    var n := UDP_HEADER + |payload|;
    var blank := UdpFields(fromPort, toPort, n, 0) + payload;
    var d := Datagram(from, to, fromPort, toPort, payload);
    assert Stamped(blank, 6, Checksum(blank, 6, Pseudo(n, from, to))) == d;
    StampedVerifies(blank, 6, Pseudo(n, from, to));
    UdpIntact(from, to, fromPort, toPort, payload);
    hide WordSum, Checksum, Fold, Datagram, OnesSum, PseudoHeader;
    PseudoCounted(from, to, 17, d, Pseudo(n, from, to));
  }

  /** A frame of ours, layer inside layer. */
  lemma FrameLayout(toMac: Mac, fromMac: Mac, from: Ip, to: Ip, fromPort: nat, toPort: nat, payload: seq<byte>)
    requires fromPort <= ONES && toPort <= ONES && IP_HEADER + UDP_HEADER + |payload| <= ONES
    ensures var f := Frame(toMac, fromMac, from, to, fromPort, toPort, payload);
      && EthernetLaidOut(f, toMac, fromMac, 0x0800, f[14..])
      && IpLaidOut(f[14..], from, to, 17, f[34..])
      && UdpLaidOut(f[34..], from, to, fromPort, toPort, payload)
  {
    hide EthernetHeader, IpHeader, EthernetLaidOut, IpLaidOut, UdpLaidOut;
    var d := Datagram(from, to, fromPort, toPort, payload);
    var ip := IpHeader(from, to, UDP_PROTOCOL, IP_HEADER + |d|);
    var eth := EthernetHeader(toMac, fromMac, IP_PROTOCOL);
    var f := Frame(toMac, fromMac, from, to, fromPort, toPort, payload);
    hide Datagram;
    assert f == eth + (ip + d) && f[14..] == ip + d && f[34..] == d;
    EthernetLayout(toMac, fromMac, IP_PROTOCOL, ip + d);
    IpLayout(from, to, UDP_PROTOCOL, d);
    UdpLayout(from, to, fromPort, toPort, payload);
  }

  // -------------------------------------------------- who gets what, exactly

  /** Exactly which packets reach a protocol: those with a whole header whose words sum to 0xFFFF,
      not longer than what has arrived, for this host or the broadcast address.  A total length that
      leaves no payload hands on everything that follows the header. */
  lemma IpReceivedIff(p: seq<byte>, own: Ip, broadcast: Ip)
    ensures ReceiveIp(p, own, broadcast).Some? <==>
              && |p| >= 20 && OnesSum(p[..20], 0) == 0xFFFF
              && !(Word(p, 10) == 0xFFFF && WordSum(p[..20], 10, 0) > 0)
              && Word(p, 2) <= |p| && (p[16..20] == own || p[16..20] == broadcast)
    ensures ReceiveIp(p, own, broadcast).Some? ==>
              var q := ReceiveIp(p, own, broadcast).value; q.from == p[12..16] && q.protocol == p[9]
    ensures ReceiveIp(p, own, broadcast).Some? && |p| <= ONES ==>
              ReceiveIp(p, own, broadcast).value.payload == if Word(p, 2) > 20 then p[20..Word(p, 2)] else p[20..]
  {
    if |p| >= 20 {
      VerifiesIff(p[..20], 10, 0);
      assert Word(p[..20], 10) == Word(p, 10);
    }
  }

  /** Exactly which datagrams reach a listener: those with a whole header and not longer than what
      has arrived, for a port that is listened to, with no checksum or one that makes the words
      of pseudo-header and datagram sum to 0xFFFF. */
  lemma UdpReceivedIff(from: Ip, d: seq<byte>, own: Ip, ports: set<nat>)
    requires |d| <= ONES
    ensures ReceiveUdp(from, d, own, ports).Some? <==>
              && |d| >= 8 && Word(d, 4) <= |d| && Word(d, 2) in ports
              && (Word(d, 6) == 0 ||
                  (OnesSum(PseudoHeader(own, from, 17, |d|) + d, 0) == 0xFFFF && Word(d, 6) != 0xFFFF))
    ensures ReceiveUdp(from, d, own, ports).Some? ==>
              var x := ReceiveUdp(from, d, own, ports).value;
              && x.from == from && x.fromPort == Word(d, 0) && x.toPort == Word(d, 2)
              && x.payload == if Word(d, 4) > 8 then d[8..Word(d, 4)] else d[8..]
  {
    if |d| >= 8 {
      VerifiesIff(d, 6, Pseudo(|d|, own, from));
      PseudoCounted(own, from, 17, d, Pseudo(|d|, own, from));
    }
    hide WordSum, Fold, Checksum, OnesSum, PseudoHeader;
  }

  /** Exactly which frames are IP, and what they carry. */
  lemma FrameReceivedIff(buffer: seq<byte>, len: nat)
    ensures ReceiveFrame(buffer, len).Some? <==> len > 0 && |buffer| >= 14 && buffer[12] == 8 && buffer[13] == 0
    ensures ReceiveFrame(buffer, len).Some? && |buffer| <= ONES && len <= ONES ==>
              ReceiveFrame(buffer, len).value == if 14 < len <= |buffer| then buffer[14..len] else buffer[14..]
  {
  }

  /** A delivery is a datagram in a packet of protocol 17 in an IP frame. */
  lemma DeliveredIff(buffer: seq<byte>, len: nat, host: Host)
    ensures Receive(buffer, len, host).Some? <==>
              && ReceiveFrame(buffer, len).Some?
              && var p := ReceiveFrame(buffer, len).value;
              && ReceiveIp(p, host.ip, host.broadcast).Some?
              && var q := ReceiveIp(p, host.ip, host.broadcast).value;
              && p[9] == 17 && ReceiveUdp(q.from, q.payload, host.ip, host.ports).Some?
    ensures Receive(buffer, len, host).Some? ==>
              var p := ReceiveFrame(buffer, len).value;
              var q := ReceiveIp(p, host.ip, host.broadcast).value;
              Receive(buffer, len, host) == ReceiveUdp(q.from, q.payload, host.ip, host.ports)
  {
    hide ReceiveFrame, ReceiveUdp;
    if ReceiveFrame(buffer, len).Some? {
      IpReceivedIff(ReceiveFrame(buffer, len).value, host.ip, host.broadcast);
    }
  }
}
