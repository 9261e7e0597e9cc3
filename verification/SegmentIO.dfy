/** Headers written into, and segments read out of, views of a buffer. */
module SegmentIO {
  import opened Words
  import opened Buffers
  import opened Checksums
  import opened Internet
  import opened NetStack
  import opened TcpWire
  import M = SocketModel

  type Seq32 = x: int | 0 <= x < MOD32

  /** Nothing but the given range differs. */
  predicate SameOutside(m: seq<byte>, n: seq<byte>, at: nat, len: nat) {
    at + len <= |m| == |n| && m[..at] == n[..at] && m[at + len..] == n[at + len..]
  }

  /** What lies around a view in its memory. */
  ghost function Outside(v: OffsetBuffer): (seq<byte>, seq<byte>)
    reads v, v.root.bytes
  {
    var m := v.root.bytes[..];
    if v.base + v.length <= |m| then (m[..v.base], m[v.base + v.length..]) else (m, m)
  }

  lemma BlitAt(m: seq<byte>, at: nat, data: seq<byte>, k: nat)
    requires at + |data| <= |m| && k < |m|
    ensures Blit(m, at, data)[k] == if at <= k < at + |data| then data[k - at] else m[k]
  {
  }

  lemma BlitShown(m: seq<byte>, base: nat, length: nat, at: nat, data: seq<byte>)
    requires base + length <= |m| && at + |data| <= length
    ensures Blit(m, base + at, data)[base..base + length] == Blit(m[base..base + length], at, data)
    ensures SameOutside(m, Blit(m, base + at, data), base, length)
  {
    var n, s := Blit(m, base + at, data), m[base..base + length];
    var x, y := n[base..base + length], Blit(s, at, data);
    hide Blit;
    forall k | 0 <= k < length ensures x[k] == y[k] {
      BlitAt(m, base + at, data, base + k);
      BlitAt(s, at, data, k);
      assert x[k] == n[base + k] && s[k] == m[base + k];
    }
    forall k | 0 <= k < |m| && !(base <= k < base + length) ensures n[k] == m[k] {
      BlitAt(m, base + at, data, k);
    }
    assert n[..base] == m[..base] && n[base + length..] == m[base + length..];
  }

  /** A write through a view, seen through the view. */
  method WriteAt(v: OffsetBuffer, at: nat, data: seq<byte>)
    requires v.Valid() && at + |data| <= v.length
    modifies v.root.bytes
    ensures v.Valid() && v.Shown() == Blit(old(v.Shown()), at, data)
    ensures SameOutside(old(v.root.bytes[..]), v.root.bytes[..], v.base, v.length)
  {
    hide OffsetBuffer.Valid, Blit, SameOutside;
    ghost var m := v.root.bytes[..];
    assert v.Shown() == m[v.base..v.base + v.length];
    var _ := v.Write(at, data);
    BlitShown(m, v.base, v.length, at, data);
    assert v.Shown() == v.root.bytes[..][v.base..v.base + v.length];
  }

  /** A copy between views of different memories, seen through the views. */
  method CopyView(from: OffsetBuffer, to: OffsetBuffer, n: nat)
    requires from.Valid() && to.Valid() && from.root.bytes != to.root.bytes && 1 <= n <= from.length && n <= to.length
    modifies to.root.bytes
    ensures to.Valid() && to.Shown() == from.Shown()[..n] + old(to.Shown())[n..]
    ensures SameOutside(old(to.root.bytes[..]), to.root.bytes[..], to.base, to.length)
    ensures Outside(to) == old(Outside(to))
  {
    hide OffsetBuffer.Valid, Blit, Copied;
    ghost var m, w := from.root.bytes[..], to.root.bytes[..];
    var _ := from.CopyTo(to, 0, 0, n);
    CopiedApart(m, w, to.base, from.base, n);
    KeptCopy(m, w, from.base, to.base, to.length, n);
    assert to.Shown() == to.root.bytes[..][to.base..to.base + to.length];
    assert from.Shown()[..n] == m[from.base..from.base + n];
  }

  // ------------------------------------------------------ writing the header

  lemma BlitSame(b: seq<byte>, h: seq<byte>)
    requires |h| < |b|
    ensures Blit(b, 0, h) == Blit(b, 0, h + [b[|h|]])
  {
  }

  /** A write that continues what has been written from `start` on. */
  method Extend(tx: OffsetBuffer, ghost b: seq<byte>, ghost start: nat, ghost h: seq<byte>, at: nat, data: seq<byte>)
    requires tx.Valid() && at == start + |h| && at + |data| <= tx.length == |b|
    requires tx.Shown() == Blit(b, start, h)
    modifies tx.root.bytes
    ensures tx.Valid() && tx.Shown() == Blit(b, start, h + data)
  {
    WriteAt(tx, at, data);
    BlitJoin(b, start, h, data);
  }

  method WriteNumbers(tx: OffsetBuffer, localPort: word, remotePort: word, q: Seq32, a: Seq32)
    requires tx.Valid() && 24 <= tx.length
    modifies tx.root.bytes
    ensures tx.Valid()
    ensures tx.Shown() == Blit(old(tx.Shown()), 0, Net16(localPort) + Net16(remotePort) + Net32(q) + Net32(a))
  {
    hide Blit, Net16, Net32, OffsetBuffer.Valid;
    ghost var b := tx.Shown();
    WriteAt(tx, 0, Net16(localPort));
    Extend(tx, b, 0, Net16(localPort), 2, Net16(remotePort));
    Extend(tx, b, 0, Net16(localPort) + Net16(remotePort), 4, Net32(q));
    Extend(tx, b, 0, Net16(localPort) + Net16(remotePort) + Net32(q), 8, Net32(a));
  }

  /** Byte 12, the header length; a FIN leaves it as it finds it. */
  method WriteLength(tx: OffsetBuffer, ghost b: seq<byte>, ghost h: seq<byte>, control: bv8)
    requires tx.Valid() && |h| == 12 && 24 <= tx.length == |b| && tx.Shown() == Blit(b, 0, h)
    modifies tx.root.bytes
    ensures tx.Valid() && tx.Shown() == Blit(b, 0, h + [Lead(b, control)])
  {
    hide Blit, M.Has, OffsetBuffer.Valid;
    if M.Has(control, M.SYN) {
      Extend(tx, b, 0, h, 12, [6 * 16]);
    } else if !M.Has(control, M.FIN) {
      Extend(tx, b, 0, h, 12, [5 * 16]);
    } else {
      BlitSame(b, h);
    }
  }

  function Lead(b: seq<byte>, control: bv8): byte
    requires 12 < |b|
  {
    if M.Has(control, M.SYN) then 96 else if M.Has(control, M.FIN) then b[12] else 80
  }

  method WriteStart(tx: OffsetBuffer, localPort: word, remotePort: word, q: Seq32, a: Seq32, control: bv8, window: word)
    requires tx.Valid() && 24 <= tx.length
    modifies tx.root.bytes
    ensures tx.Valid()
    ensures var b := old(tx.Shown());
      tx.Shown() == Blit(b, 0, Start(localPort, remotePort, q, a, Lead(b, control), control, window))
  {
    hide Blit, Net16, Net32, FlagByte, Lead, OffsetBuffer.Valid;
    ghost var b := tx.Shown();
    WriteNumbers(tx, localPort, remotePort, q, a);
    ghost var h := Net16(localPort) + Net16(remotePort) + Net32(q) + Net32(a);
    WriteLength(tx, b, h, control);
    Extend(tx, b, 0, h + [Lead(b, control)], 13, [FlagByte(control)]);
    Extend(tx, b, 0, h + [Lead(b, control)] + [FlagByte(control)], 14, Net16(window));
  }

  /** The urgent pointer, and the maximum segment size option of a SYN. */
  method WriteRest(tx: OffsetBuffer, control: bv8, maxSegmentSize: word)
    requires tx.Valid() && 24 <= tx.length
    modifies tx.root.bytes
    ensures tx.Valid()
    ensures var b, c := old(tx.Shown()), tx.Shown();
      c[..16] == b[..16] && c[18..20] == Net16(0) &&
      if M.Has(control, M.SYN) then c[20..24] == MaxSegmentOption(maxSegmentSize) else c[20..] == b[20..]
  {
    hide OffsetBuffer.Valid, M.Has, Net16, Blit, MaxSegmentOption;
    ghost var b := tx.Shown();
    if M.Has(control, M.SYN) {
      WriteOption(tx, maxSegmentSize);
    }
    ghost var c := tx.Shown();
    WriteAt(tx, 18, Net16(0));
    BlitAround(c, 18, Net16(0));
    SplitAt(tx.Shown(), c);
    assert c[..16] == c[..20][..16] && b[..16] == b[..20][..16];
  }

  lemma SplitAt(d: seq<byte>, c: seq<byte>)
    requires 24 <= |d| == |c| && d[..18] == c[..18] && d[20..] == c[20..]
    ensures d[..16] == c[..16] && d[20..24] == c[20..24]
  {
    assert d[..16] == d[..18][..16] && c[..16] == c[..18][..16];
    assert d[20..24] == d[20..][..4] && c[20..24] == c[20..][..4];
  }

  method WriteOption(tx: OffsetBuffer, maxSegmentSize: word)
    requires tx.Valid() && 24 <= tx.length
    modifies tx.root.bytes
    ensures tx.Valid()
    ensures var b, c := old(tx.Shown()), tx.Shown(); c[..20] == b[..20] && c[20..24] == MaxSegmentOption(maxSegmentSize)
  {
    hide OffsetBuffer.Valid, Net16, Blit;
    ghost var b := tx.Shown();
    WriteAt(tx, 20, [2]);
    Extend(tx, b, 20, [2], 21, [4]);
    Extend(tx, b, 20, [2] + [4], 22, Net16(maxSegmentSize));
    BlitAround(b, 20, MaxSegmentOption(maxSegmentSize));
  }

  function MaxSegmentOption(size: word): (s: seq<byte>)
    ensures |s| == 4
  {
    [2] + [4] + Net16(size)
  }

  lemma BlitAround(b: seq<byte>, at: nat, data: seq<byte>)
    requires at + |data| <= |b|
    ensures var c := Blit(b, at, data);
      c[..at] == b[..at] && c[at..at + |data|] == data && c[at + |data|..] == b[at + |data|..]
  {
  }

  /** Ports, urgent pointer, the option of a SYN, and the checksum. */
  ghost predicate OnWire(b: seq<byte>, control: bv8, length: nat, localPort: word, remotePort: word,
                         maxSegmentSize: word, from: Ip, to: Ip) {
    && Sealed(b, SegmentSize(control, length), from, to)
    && Word(b, 0) == localPort && Word(b, 2) == remotePort && Word(b, 18) == 0
    && (M.Has(control, M.SYN) ==> 24 <= |b| && Word(b, 20) == 0x0204 && Word(b, 22) == maxSegmentSize)
  }

  lemma OnWireSums(b: seq<byte>, control: bv8, length: nat, localPort: word, remotePort: word, maxSegmentSize: word,
                   from: Ip, to: Ip)
    requires OnWire(b, control, length, localPort, remotePort, maxSegmentSize, from, to) && |b| <= ONES
    ensures SegmentSize(control, length) <= |b| && SumsUp(b[..SegmentSize(control, length)], from, to)
  {
    SealedSums(b, SegmentSize(control, length), from, to);
    hide SumsUp, SegmentSize, Word;
  }

  /** The numbers, control bits and window of a header at their offsets. */
  ghost predicate Numbered(b: seq<byte>, q: nat, a: nat, control: bv8, window: nat) {
    16 <= |b| && Quad(b, 4) == q && Quad(b, 8) == a && b[13] == FlagByte(control) && Word(b, 14) == window
  }

  lemma StartNumbered(b: seq<byte>, localPort: word, remotePort: word, q: Seq32, a: Seq32, lead: byte, control: bv8,
                      window: word)
    requires 16 <= |b| && b[..16] == Start(localPort, remotePort, q, a, lead, control, window)
    ensures Numbered(b, q, a, control, window)
  {
    hide Word, Quad, Net16, Net32, FlagByte;
    var h := b[..16];
    assert h[4..8] == Net32(q) && h[8..12] == Net32(a) && h[14..16] == Net16(window) && h[13] == FlagByte(control);
    assert b[4..8] == h[4..8] && b[8..12] == h[8..12] && b[14..16] == h[14..16] && b[13] == h[13];
    QuadComesBack(b, 4, q);
    QuadComesBack(b, 8, a);
    WordComesBack(b, 14, window);
  }

  lemma BlitSeals(b: seq<byte>, n: nat, from: Ip, to: Ip)
    requires 20 <= n <= |b|
    ensures var c := Blit(b, 16, Net16(Checksum(b[..n], 16, TcpPseudo(n, from, to))));
      Sealed(c, n, from, to) && c[..16] == b[..16] && c[18..] == b[18..]
  {
    hide Checksum, TcpPseudo;
    var c := Blit(b, 16, Net16(Checksum(b[..n], 16, TcpPseudo(n, from, to))));
    SkippedWord(b[..n], c[..n], 16, TcpPseudo(n, from, to));
    NetWord(c, 16, Checksum(b[..n], 16, TcpPseudo(n, from, to)));
  }

  /** transmit, up to the call of the IP handler. */
  method Seal(tx: OffsetBuffer, n: nat, from: Ip, to: Ip)
    requires tx.Valid() && 20 <= n <= tx.length
    modifies tx.root.bytes
    ensures tx.Valid() && Sealed(tx.Shown(), n, from, to)
    ensures var b, c := old(tx.Shown()), tx.Shown(); c[..16] == b[..16] && c[18..] == b[18..]
  {
    hide OffsetBuffer.Valid, Checksum, Net16, Sealed, Blit;
    ghost var b := tx.Shown();
    BlitSeals(b, n, from, to);
    var sum := ComputeChecksum(tx, n, 16, TcpPseudo(n, from, to));
    WriteAt(tx, 16, Net16(sum));
  }

  /** The whole of a segment's header, in front of `length` bytes of data. */
  method WriteSegment(tx: OffsetBuffer, localPort: word, remotePort: word, q: Seq32, a: Seq32, control: bv8,
                      window: word, maxSegmentSize: word, length: nat, from: Ip, to: Ip)
    requires tx.Valid() && 24 <= tx.length && TCP_HEADER + length <= tx.length
    requires M.Has(control, M.SYN) ==> length == 0
    modifies tx.root.bytes
    ensures tx.Valid() && OnWire(tx.Shown(), control, length, localPort, remotePort, maxSegmentSize, from, to)
    ensures Numbered(tx.Shown(), q, a, control, window)
    ensures var b := old(tx.Shown());
      && tx.Shown()[12] == Lead(b, control)
      && Emitted(tx.Shown(), length) ==
           M.Segment(control, q, a, window, Lead(b, control) / 16, b[TCP_HEADER..TCP_HEADER + length])
  {
    hide OffsetBuffer.Valid, Lead, M.Has, Blit, Sealed, Start, Emitted, Checksum, OnWire, Numbered;
    hide MaxSegmentOption, Net16;
    ghost var b := tx.Shown();
    WriteStart(tx, localPort, remotePort, q, a, control, window);
    ghost var h := Start(localPort, remotePort, q, a, Lead(b, control), control, window);
    BlitFront(b, h);
    StartFields(localPort, remotePort, q, a, Lead(b, control), control, window);
    WriteRest(tx, control, maxSegmentSize);
    ghost var d := tx.Shown();
    Seal(tx, SegmentSize(control, length), from, to);
    ghost var c := tx.Shown();
    FieldsOnWire(d, c, h, control, length, localPort, remotePort, maxSegmentSize, from, to);
    DataKept(b, d, c, length);
    StartNumbered(c, localPort, remotePort, q, a, Lead(b, control), control, window);
    HeaderComesBack(c, localPort, remotePort, q, a, Lead(b, control), control, window, length);
  }

  /** The header and the checksum leave the data behind them as it was. */
  lemma DataKept(b: seq<byte>, d: seq<byte>, c: seq<byte>, length: nat)
    requires 24 <= |b| == |d| == |c| && TCP_HEADER + length <= |b|
    requires c[..16] == d[..16] && c[18..] == d[18..] && (length > 0 ==> d[20..] == b[20..])
    ensures c[12] == d[..16][12]
    ensures c[TCP_HEADER..TCP_HEADER + length] == b[TCP_HEADER..TCP_HEADER + length]
  {
    assert c[12] == c[..16][12];
    forall k | TCP_HEADER <= k < TCP_HEADER + length ensures c[k] == b[k] {
      assert c[k] == c[18..][k - 18] && d[k] == d[18..][k - 18];
      assert d[k] == d[20..][k - 20] && b[k] == b[20..][k - 20];
    }
  }

  lemma FieldsOnWire(d: seq<byte>, c: seq<byte>, h: seq<byte>, control: bv8, length: nat, localPort: word,
                     remotePort: word, maxSegmentSize: word, from: Ip, to: Ip)
    requires |h| == 16 && h[..2] == Net16(localPort) && h[2..4] == Net16(remotePort)
    requires 24 <= |d| == |c| && d[18..20] == Net16(0) && d[..16] == h
    requires M.Has(control, M.SYN) ==> d[20..24] == MaxSegmentOption(maxSegmentSize)
    requires Sealed(c, SegmentSize(control, length), from, to) && c[..16] == d[..16] && c[18..] == d[18..]
    ensures OnWire(c, control, length, localPort, remotePort, maxSegmentSize, from, to)
  {
    hide Sealed, M.Has, Word, Net16;
    assert c[0..2] == c[..16][..2] && c[2..4] == c[..16][2..4] && c[18..20] == c[18..][..2] == d[18..20];
    WordComesBack(c, 0, localPort);
    WordComesBack(c, 2, remotePort);
    WordComesBack(c, 18, 0);
    if M.Has(control, M.SYN) {
      assert c[20..24] == c[18..][2..6] == d[20..24];
      assert c[20..22] == c[20..24][..2] == [2] + [4] && c[22..24] == c[20..24][2..];
      OptionKind();
      WordComesBack(c, 20, 0x0204);
      WordComesBack(c, 22, maxSegmentSize);
    }
  }

  lemma OptionKind()
    ensures [2] + [4] == Net16(0x0204)
  {
  }

  function SegmentSize(control: bv8, length: nat): nat {
    TCP_HEADER + length + if M.Has(control, M.SYN) then 4 else 0
  }

  lemma BlitFront(b: seq<byte>, h: seq<byte>)
    requires |h| <= |b|
    ensures Blit(b, 0, h)[..|h|] == h && forall k :: |h| <= k <= |b| ==> Blit(b, 0, h)[k..] == b[k..]
  {
  }

  lemma StartFields(localPort: word, remotePort: word, q: Seq32, a: Seq32, lead: byte, control: bv8, window: word)
    ensures var h := Start(localPort, remotePort, q, a, lead, control, window);
      h[12] == lead && h[..2] == Net16(localPort) && h[2..4] == Net16(remotePort)
  {
  }

  // ------------------------------------------------------ reading a segment

  method ReadByte(v: OffsetBuffer, at: nat) returns (b: byte)
    requires v.Valid() && at < v.length
    ensures b == v.Shown()[at]
  {
    var s := ReadBytes(v, at, 1);
    b := s[0];
  }

  method ReadNet32(v: OffsetBuffer, at: nat) returns (x: nat)
    requires v.Valid() && at + 4 <= v.length
    ensures x == Quad(v.Shown(), at) < MOD32
  {
    hide OffsetBuffer.Valid, Word;
    var high := ReadNet16(v, at);
    var low := ReadNet16(v, at + 2);
    x := MOD16 * high + low;
  }

  /** verify the checksum; too short a segment has none. */
  method ReadValid(v: OffsetBuffer, local: Ip, remote: Ip) returns (valid: bool)
    requires v.Valid()
    ensures var d := v.Shown(); valid == (|d| >= 18 && Word(d, 16) == Checksum(d, 16, TcpPseudo(|d|, local, remote)))
  {
    hide OffsetBuffer.Valid, Word, Checksum;
    PseudoBound(v.length, local, remote);
    var sum := ComputeChecksum(v, v.length, 16, TcpPseudo(v.length, local, remote));
    assert v.Shown()[..v.length] == v.Shown();
    if v.length < 18 {
      return false;
    }
    var given := ReadNet16(v, 16);
    valid := given == sum;
  }

  lemma PseudoBound(len: nat, a: Ip, b: Ip)
    requires len < MOD16
    ensures TcpPseudo(len, a, b) < 0x8000_0000
  {
  }

  method ReadMss(v: OffsetBuffer, words: nat) returns (mss: Option<nat>)
    requires v.Valid()
    ensures mss == MssOption(v.Shown(), words)
  {
    hide OffsetBuffer.Valid, Word;
    mss := None;
    if words == 6 && 24 <= v.length {
      var kind := ReadNet16(v, 20);
      var size := ReadNet16(v, 22);
      if kind == 0x0204 {
        mss := Some(size);
      }
    }
  }

  method ReadPayload(v: OffsetBuffer, words: nat) returns (recv: seq<byte>)
    requires v.Valid()
    ensures var d := v.Shown(); recv == if 4 * words <= |d| then d[4 * words..] else []
  {
    if v.length < 4 * words {
      return [];
    }
    recv := ReadBytes(v, 4 * words, v.length - 4 * words);
  }

  method ReadArrival(v: OffsetBuffer, local: Ip, remote: Ip) returns (g: M.Arrival)
    requires v.Valid() && 16 <= v.length
    ensures g == Received(v.Shown(), local, remote) && g.seqNo < MOD32 && g.ackNo < MOD32
  {
    hide OffsetBuffer.Valid, OffsetBuffer.Shown, Word, Checksum, TcpPseudo, Quad, Flags, MssOption;
    var lead := ReadByte(v, 12);
    var opt := ReadByte(v, 13);
    var ackNo := ReadNet32(v, 8);
    var seqNo := ReadNet32(v, 4);
    var window := ReadNet16(v, 14);
    var valid := ReadValid(v, local, remote);
    var recv := ReadPayload(v, lead / 16);
    var mss := ReadMss(v, lead / 16);
    g := M.Arrival(valid, Flags(opt), seqNo, ackNo, window, lead / 16, v.length, recv, mss);
  }

  /** Writing behind the header leaves the header alone. */
  lemma HeaderKept(m: seq<byte>, n: seq<byte>, base: nat, length: nat)
    requires TCP_HEADER <= length && base + length <= |m|
    requires SameOutside(m, n, base + TCP_HEADER, length - TCP_HEADER)
    ensures |n| == |m| && n[base..base + length][..TCP_HEADER] == m[base..base + length][..TCP_HEADER]
    ensures n[base..base + length][12] == m[base..base + length][12]
  {
    assert n[..base + TCP_HEADER][base..] == n[base..base + length][..TCP_HEADER];
    assert m[..base + TCP_HEADER][base..] == m[base..base + length][..TCP_HEADER];
    assert n[base..base + length][12] == n[base..base + length][..TCP_HEADER][12];
    assert m[base..base + length][12] == m[base..base + length][..TCP_HEADER][12];
  }

  lemma KeptCopy(m: seq<byte>, w: seq<byte>, from: nat, base: nat, size: nat, n: nat)
    requires from + n <= |m| && n <= size && base + size <= |w|
    ensures var data := m[from..from + n]; var r := Blit(w, base, data);
      && SameOutside(w, r, base, size)
      && r[base..base + size] == data + w[base..base + size][n..]
  {
    var data, s := m[from..from + n], w[base..base + size];
    BlitShown(w, base, size, 0, data);
    assert Blit(s, 0, data) == data + s[n..];
  }
}
