/** The handlers that build a frame through three nested views of one send buffer, and
    the ones that take a received frame apart through three nested views. */
module NetStack {
  import opened Words
  import opened Buffers
  import opened Checksums
  import opened Internet

  // -------------------------------------------------- writes that touch ends

  /** Two adjacent writes are one. */
  lemma BlitJoin(m: seq<byte>, at: nat, x: seq<byte>, y: seq<byte>)
    requires at + |x| + |y| <= |m|
    ensures Blit(Blit(m, at, x), at + |x|, y) == Blit(m, at, x + y)
  {
  }

  /** A gap filled last. */
  lemma BlitFill(m: seq<byte>, at: nat, x: seq<byte>, y: seq<byte>, z: seq<byte>)
    requires at + |x| + |y| + |z| <= |m|
    ensures Blit(Blit(Blit(m, at, x), at + |x| + |y|, z), at + |x|, y) == Blit(m, at, x + y + z)
  {
  }

  /** A checksum does not look at the word it skips. */
  lemma SkippedWord(a: seq<byte>, b: seq<byte>, at: nat, pseudo: nat)
    requires |a| == |b| && at + 1 < |a| && at % 2 == 0
    requires forall i :: 0 <= i < |a| && i != at && i != at + 1 ==> a[i] == b[i]
    ensures Checksum(a, at, pseudo) == Checksum(b, at, pseudo)
  {
    assert Stamped(a, at, 0) == Stamped(b, at, 0);
    SkipStamp(a, at, 0, 0);
    SkipStamp(b, at, 0, 0);
  }

  method WriteNet16(v: OffsetBuffer, at: nat, w: nat)
    requires v.Valid() && at + 2 <= v.length && w <= ONES
    modifies v.root.bytes
    ensures v.Valid()
    ensures v.root.bytes[..] == Blit(old(v.root.bytes[..]), v.base + at, Net16(w))
  {
    var _ := v.Write(at, Net16(w));
  }

  /** A write that continues what the caller has written from `start` on. */
  method Append(v: OffsetBuffer, ghost m: seq<byte>, ghost start: nat, ghost head: seq<byte>, at: nat, data: seq<byte>)
    requires v.Valid() && at == start + |head| && at + |data| <= v.length && |m| == v.root.bytes.Length
    requires v.root.bytes[..] == Blit(m, v.base + start, head)
    modifies v.root.bytes
    ensures v.Valid()
    ensures v.root.bytes[..] == Blit(m, v.base + start, head + data)
  {
    var _ := v.Write(at, data);
    BlitJoin(m, v.base + start, head, data);
  }

  method ReadNet16(v: OffsetBuffer, at: nat) returns (w: nat)
    requires v.Valid() && at + 2 <= v.length
    ensures w == Word(v.Shown(), at)
  {
    var _, s := v.Read(at, 2);
    w := 256 * (s[0] as int) + s[1] as int;
  }

  // --------------------------------------------------------------- Ethernet

  lemma BlitHead(m: seq<byte>, h: seq<byte>, n: nat)
    requires |h| + n <= |m|
    ensures Blit(m, 0, h)[..|h| + n] == h + m[|h|..|h| + n]
  {
    BlitBehind(m, 0, h, n);
  }

  /** A header written in front of n bytes. */
  lemma BlitBehind(m: seq<byte>, at: nat, h: seq<byte>, n: nat)
    requires at + |h| + n <= |m|
    ensures Blit(m, at, h)[at..at + |h| + n] == h + m[at + |h|..at + |h| + n]
  {
    var b := Blit(m, at, h);
    assert b[at..at + |h|] == h && b[at + |h|..at + |h| + n] == m[at + |h|..at + |h| + n];
    assert b[at..at + |h| + n] == b[at..at + |h|] + b[at + |h|..at + |h| + n];
  }

  method WriteEthernetHeader(b: MemBuffer, to: Mac, from: Mac, protocol: nat)
    requires ETHERNET_HEADER <= b.bytes.Length && protocol <= ONES
    modifies b.bytes
    ensures b.bytes[..] == Blit(old(b.bytes[..]), 0, EthernetHeader(to, from, protocol))
  {
    ghost var m := b.bytes[..];
    var _ := b.Write(0, to);
    var _ := b.Write(6, from);
    BlitJoin(m, 0, to, from);
    var _ := b.Write(12, Net16(protocol));
    BlitJoin(m, 0, to + from, Net16(protocol));
  }

  class EtherControl {
    const sendBuffer: MemBuffer
    const sendPayloadBuffer: OffsetBuffer
    const mac: Mac

    ghost predicate Valid()
      reads sendPayloadBuffer, sendPayloadBuffer.Repr
    {
      && sendPayloadBuffer.Valid() && sendPayloadBuffer.root == sendBuffer
      && sendPayloadBuffer.base == ETHERNET_HEADER
      && ETHERNET_HEADER + sendPayloadBuffer.length == sendBuffer.bytes.Length
    }

    constructor (sendBuffer: MemBuffer, mac: Mac)
      requires ETHERNET_HEADER <= sendBuffer.bytes.Length < MOD16
      ensures Valid() && this.sendBuffer == sendBuffer && this.mac == mac
      ensures fresh(sendPayloadBuffer) && fresh(sendPayloadBuffer.Repr)
    {
      this.sendBuffer := sendBuffer;
      this.mac := mac;
      sendPayloadBuffer := new OffsetBuffer(Mem(sendBuffer), ETHERNET_HEADER, 0);
    }

    method SendFrame(to: Mac, protocol: nat, payloadLength: nat) returns (ok: bool, frame: seq<byte>)
      requires Valid() && protocol <= ONES
      modifies sendBuffer.bytes
      ensures ok == (ETHERNET_HEADER + payloadLength <= sendBuffer.bytes.Length)
      ensures ok ==> frame == EthernetHeader(to, mac, protocol)
                              + old(sendBuffer.bytes[..])[ETHERNET_HEADER..ETHERNET_HEADER + payloadLength]
      ensures ok ==> EthernetLaidOut(frame, to, mac, protocol, old(sendBuffer.bytes[..])[14..14 + payloadLength])
      ensures sendBuffer.bytes[..] ==
        if ok then Blit(old(sendBuffer.bytes[..]), 0, EthernetHeader(to, mac, protocol)) else old(sendBuffer.bytes[..])
    {
      if payloadLength > sendBuffer.bytes.Length - ETHERNET_HEADER {
        return false, [];
      }
      ghost var m := sendBuffer.bytes[..];
      WriteEthernetHeader(sendBuffer, to, mac, protocol);
      BlitHead(m, EthernetHeader(to, mac, protocol), payloadLength);
      ok, frame := true, sendBuffer.bytes[..ETHERNET_HEADER + payloadLength];
      assert frame == sendBuffer.bytes[..][..ETHERNET_HEADER + payloadLength];
      EthernetLayout(to, mac, protocol, m[ETHERNET_HEADER..ETHERNET_HEADER + payloadLength]);
    }
  }

  // --------------------------------------------------------------------- IP

  method WriteIpLengths(p: OffsetBuffer, total: nat)
    requires p.Valid() && IP_HEADER <= p.length && total <= ONES
    modifies p.root.bytes
    ensures p.Valid()
    ensures p.root.bytes[..] == Blit(old(p.root.bytes[..]), p.base, [0x45, 0] + Net16(total) + Net16(0))
  {
    ghost var m := p.root.bytes[..];
    WriteIpVersion(p);
    Append(p, m, 0, [0x45, 0], 2, Net16(total));
    Append(p, m, 0, [0x45, 0] + Net16(total), 4, Net16(0));
  }

  method WriteIpVersion(p: OffsetBuffer)
    requires p.Valid() && IP_HEADER <= p.length
    modifies p.root.bytes
    ensures p.Valid()
    ensures p.root.bytes[..] == Blit(old(p.root.bytes[..]), p.base, [0x45, 0])
  {
    ghost var m := p.root.bytes[..];
    var _ := p.Write(0, [0x45]);
    Append(p, m, 0, [0x45], 1, [0]);
    assert [0x45] + [0] == [0x45, 0];
  }

  method WriteIpStart(p: OffsetBuffer, protocol: byte, total: nat)
    requires p.Valid() && IP_HEADER <= p.length && total <= ONES
    modifies p.root.bytes
    ensures p.Valid()
    ensures p.root.bytes[..] == Blit(old(p.root.bytes[..]), p.base, IpStart(protocol, total))
  {
    ghost var m := p.root.bytes[..];
    WriteIpLengths(p, total);
    ghost var h := [0x45, 0] + Net16(total) + Net16(0);
    Append(p, m, 0, h, 6, Net16(0x4000));
    Append(p, m, 0, h + Net16(0x4000), 8, [64]);
    Append(p, m, 0, h + Net16(0x4000) + [64], 9, [protocol]);
  }

  /** The fields in the order sendPacket writes them, the checksum last. */
  method WriteIpHeader(p: OffsetBuffer, from: Ip, to: Ip, protocol: byte, total: nat)
    requires p.Valid() && IP_HEADER <= p.length && total <= ONES
    modifies p.root.bytes
    ensures p.Valid()
    ensures p.root.bytes[..] == Blit(old(p.root.bytes[..]), p.base, IpHeader(from, to, protocol, total))
  {
    ghost var m := p.root.bytes[..];
    WriteIpStart(p, protocol, total);
    WriteAddresses(p, from, to);
    StampIpHeader(p, m, from, to, protocol, total);
  }

  method WriteAddresses(p: OffsetBuffer, from: Ip, to: Ip)
    requires p.Valid() && IP_HEADER <= p.length
    modifies p.root.bytes
    ensures p.Valid()
    ensures p.root.bytes[..] == Blit(old(p.root.bytes[..]), p.base + 12, from + to)
  {
    ghost var m := p.root.bytes[..];
    var _ := p.Write(12, from);
    Append(p, m, 12, from, 16, to);
  }

  /** Two writes with a gap of two bytes between them. */
  lemma BlitGap(m: seq<byte>, at: nat, x: seq<byte>, z: seq<byte>)
    requires |x| == 10 && |z| == 8 && at + IP_HEADER <= |m|
    ensures Blit(Blit(m, at, x), at + 12, z)[at..at + IP_HEADER] == x + m[at + 10..at + 12] + z
  {
    var v := Blit(m, at, x);
    var w := Blit(v, at + 12, z);
    assert v[at..at + 10] == x && v[at + 10..at + 12] == m[at + 10..at + 12];
    assert w[at..at + 12] == v[at..at + 12] && w[at + 12..at + 20] == z;
    assert w[at..at + IP_HEADER] == w[at..at + 12] + w[at + 12..at + 20];
  }

  lemma BlankIpChecksum(m: seq<byte>, at: nat, x: seq<byte>, z: seq<byte>)
    requires |x| == 10 && |z| == 8 && at + IP_HEADER <= |m|
    ensures Checksum(Blit(Blit(m, at, x), at + 12, z)[at..at + IP_HEADER], 10, 0) == Checksum(x + Net16(0) + z, 10, 0)
  {
    hide Blit, Checksum, Net16;
    BlitGap(m, at, x, z);
    SkippedWord(x + m[at + 10..at + 12] + z, x + Net16(0) + z, 10, 0);
  }

  method StampIpHeader(p: OffsetBuffer, ghost m: seq<byte>, from: Ip, to: Ip, protocol: byte, total: nat)
    requires p.Valid() && IP_HEADER <= p.length && total <= ONES && |m| == p.root.bytes.Length
    requires p.root.bytes[..] == Blit(Blit(m, p.base, IpStart(protocol, total)), p.base + 12, from + to)
    modifies p.root.bytes
    ensures p.Valid()
    ensures p.root.bytes[..] == Blit(m, p.base, IpHeader(from, to, protocol, total))
  {
    hide OffsetBuffer.Valid, Checksum, IpStart, Net16, Blit;
    ghost var now := p.root.bytes[..];
    BlankIpChecksum(m, p.base, IpStart(protocol, total), from + to);
    assert p.Shown()[..IP_HEADER] == now[p.base..p.base + IP_HEADER];
    var sum := ComputeChecksum(p, IP_HEADER, 10, 0);
    WriteNet16(p, 10, sum);
    BlitFill(m, p.base, IpStart(protocol, total), Net16(sum), from + to);
  }

  lemma PacketLayout(frame: seq<byte>, toMac: Mac, fromMac: Mac, from: Ip, to: Ip, protocol: byte, payload: seq<byte>)
    requires IP_HEADER + |payload| <= ONES
    requires frame == EthernetHeader(toMac, fromMac, IP_PROTOCOL)
                      + IpHeader(from, to, protocol, IP_HEADER + |payload|) + payload
    ensures EthernetLaidOut(frame, toMac, fromMac, 0x0800, frame[14..])
    ensures IpLaidOut(frame[14..], from, to, protocol, payload)
  {
    hide EthernetHeader, EthernetLaidOut, IpHeader, IpLaidOut;
    var p := IpHeader(from, to, protocol, IP_HEADER + |payload|) + payload;
    assert frame == EthernetHeader(toMac, fromMac, IP_PROTOCOL) + p && frame[14..] == p;
    EthernetLayout(toMac, fromMac, IP_PROTOCOL, p);
    IpLayout(from, to, protocol, payload);
  }

  class IPHandler {
    const ether: EtherControl
    const ipAddress: Ip
    const sendPacketBuffer: OffsetBuffer

    ghost predicate Valid()
      reads ether.sendPayloadBuffer, ether.sendPayloadBuffer.Repr, sendPacketBuffer, sendPacketBuffer.Repr
    {
      && ether.Valid() && sendPacketBuffer.Valid() && sendPacketBuffer.root == ether.sendBuffer
      && sendPacketBuffer.base == ETHERNET_HEADER + IP_HEADER
      && ETHERNET_HEADER + IP_HEADER + sendPacketBuffer.length == ether.sendBuffer.bytes.Length
    }

    constructor (ipAddress: Ip, ether: EtherControl)
      requires ether.Valid() && ETHERNET_HEADER + IP_HEADER <= ether.sendBuffer.bytes.Length
      ensures Valid() && this.ether == ether && this.ipAddress == ipAddress
    {
      this.ether := ether;
      this.ipAddress := ipAddress;
      sendPacketBuffer := new OffsetBuffer(View(ether.sendPayloadBuffer), IP_HEADER, 0);
    }

    /** Wraps the packet payload already in the send buffer, if a route is known. */
    method SendPacket(to: Ip, protocol: byte, payloadLength: nat, route: Option<Mac>)
        returns (ok: bool, frame: seq<byte>)
      requires Valid() && IP_HEADER + payloadLength <= ONES
      modifies ether.sendBuffer.bytes
      ensures ok == (route.Some? && ETHERNET_HEADER + IP_HEADER + payloadLength <= ether.sendBuffer.bytes.Length)
      ensures ok ==>
        (frame == EthernetHeader(route.value, ether.mac, IP_PROTOCOL)
                  + IpHeader(ipAddress, to, protocol, IP_HEADER + payloadLength)
                  + old(ether.sendBuffer.bytes[..])[ETHERNET_HEADER + IP_HEADER..
                                                    ETHERNET_HEADER + IP_HEADER + payloadLength])
      ensures ok ==>
        && EthernetLaidOut(frame, route.value, ether.mac, 0x0800, frame[14..])
        && IpLaidOut(frame[14..], ipAddress, to, protocol, old(ether.sendBuffer.bytes[..])[34..34 + payloadLength])
      ensures !ok ==> ether.sendBuffer.bytes[..] == old(ether.sendBuffer.bytes[..])
    {
      var p := ether.sendPayloadBuffer;
      if p.length < IP_HEADER + payloadLength || route.None? {
        return false, [];
      }
      hide OffsetBuffer.Valid, Blit, IpHeader, EthernetHeader, EthernetLaidOut, IpLaidOut;
      ghost var m := ether.sendBuffer.bytes[..];
      var total := IP_HEADER + payloadLength;
      WriteIpHeader(p, ipAddress, to, protocol, total);
      BlitBehind(m, ETHERNET_HEADER, IpHeader(ipAddress, to, protocol, total), payloadLength);
      ok, frame := ether.SendFrame(route.value, IP_PROTOCOL, total);
      PacketLayout(frame, route.value, ether.mac, ipAddress, to, protocol,
                   m[ETHERNET_HEADER + IP_HEADER..ETHERNET_HEADER + IP_HEADER + payloadLength]);
    }
  }

  // -------------------------------------------------------------------- UDP

  method WriteUdpStart(v: OffsetBuffer, fromPort: nat, toPort: nat, len: nat)
    requires v.Valid() && UDP_HEADER <= v.length && fromPort <= ONES && toPort <= ONES && len <= ONES
    modifies v.root.bytes
    ensures v.Valid()
    ensures v.root.bytes[..] == Blit(old(v.root.bytes[..]), v.base, Net16(fromPort) + Net16(toPort) + Net16(len))
  {
    ghost var m := v.root.bytes[..];
    WriteNet16(v, 0, fromPort);
    Append(v, m, 0, Net16(fromPort), 2, Net16(toPort));
    Append(v, m, 0, Net16(fromPort) + Net16(toPort), 4, Net16(len));
  }

  /** The datagram header in front of the payload already in the view, checksum last. */
  method WriteUdpHeader(v: OffsetBuffer, from: Ip, to: Ip, fromPort: nat, toPort: nat,
                        ghost payload: seq<byte>, len: nat)
    requires v.Valid() && toPort <= ONES && fromPort <= ONES && len == UDP_HEADER + |payload| <= ONES && len <= v.length
    requires v.root.bytes[v.base + UDP_HEADER..v.base + len] == payload
    modifies v.root.bytes
    ensures v.Valid()
    ensures v.root.bytes[v.base..v.base + len] == Datagram(from, to, fromPort, toPort, payload)
  {
    WriteUdpStart(v, fromPort, toPort, len);
    ghost var h := Net16(fromPort) + Net16(toPort) + Net16(len);
    assert v.root.bytes[v.base..v.base + 6] == h;
    assert v.root.bytes[v.base + UDP_HEADER..v.base + len] == payload;
    StampDatagram(v, h, from, to, payload, len);
  }

  lemma BlitBetween(m: seq<byte>, at: nat, x: seq<byte>, y: seq<byte>, z: seq<byte>)
    requires at + |x| + |y| + |z| <= |m|
    requires m[at..at + |x|] == x && m[at + |x| + |y|..at + |x| + |y| + |z|] == z
    ensures Blit(m, at + |x|, y)[at..at + |x| + |y| + |z|] == x + y + z
  {
  }

  lemma BlankChecksum(m: seq<byte>, at: nat, h: seq<byte>, payload: seq<byte>, pseudo: nat)
    requires |h| == 6 && at + UDP_HEADER + |payload| <= |m|
    requires m[at..at + 6] == h && m[at + UDP_HEADER..at + UDP_HEADER + |payload|] == payload
    ensures Checksum(m[at..at + UDP_HEADER + |payload|], 6, pseudo) == Checksum(h + Net16(0) + payload, 6, pseudo)
  {
    var n := UDP_HEADER + |payload|;
    assert m[at..at + n] == h + m[at + 6..at + 8] + payload;
    SkippedWord(m[at..at + n], h + Net16(0) + payload, 6, pseudo);
  }

  method StampDatagram(v: OffsetBuffer, ghost h: seq<byte>, from: Ip, to: Ip, ghost payload: seq<byte>, len: nat)
    requires v.Valid() && |h| == 6 && len == UDP_HEADER + |payload| <= v.length
    requires v.root.bytes[v.base..v.base + 6] == h && v.root.bytes[v.base + UDP_HEADER..v.base + len] == payload
    modifies v.root.bytes
    ensures v.Valid()
    ensures v.root.bytes[v.base..v.base + len] ==
      h + Net16(Checksum(h + Net16(0) + payload, 6, Pseudo(len, from, to))) + payload
  {
    hide OffsetBuffer.Valid, Checksum, Pseudo, Net16, Blit;
    ghost var m := v.root.bytes[..];
    BlankChecksum(m, v.base, h, payload, Pseudo(len, from, to));
    assert v.Shown()[..len] == m[v.base..v.base + len];
    var sum := CalcChecksum(v, len, from, to);
    assert v.root.bytes[..] == m;
    WriteNet16(v, 6, sum);
    BlitBetween(m, v.base, h, Net16(sum), payload);
    ghost var now := v.root.bytes[..];
    assert now == Blit(m, v.base + 6, Net16(sum));
    assert v.root.bytes[v.base..v.base + len] == now[v.base..v.base + len];
  }

  class UDPHandler {
    const ip: IPHandler
    const sendPayloadBuffer: OffsetBuffer

    ghost predicate Valid()
      reads ip.ether.sendPayloadBuffer, ip.ether.sendPayloadBuffer.Repr, ip.sendPacketBuffer, ip.sendPacketBuffer.Repr
    {
      ip.Valid()
    }

    constructor (ip: IPHandler)
      requires ip.Valid() && UDP_HEADER <= ip.sendPacketBuffer.length
      ensures Valid() && this.ip == ip
      ensures sendPayloadBuffer.Valid() && sendPayloadBuffer.root == ip.ether.sendBuffer
      ensures sendPayloadBuffer.base == ETHERNET_HEADER + IP_HEADER + UDP_HEADER
    {
      this.ip := ip;
      sendPayloadBuffer := new OffsetBuffer(View(ip.sendPacketBuffer), UDP_HEADER, 0);
    }

    method SendDatagram(to: Ip, toPort: nat, fromPort: nat, payload: seq<byte>, route: Option<Mac>)
        returns (ok: bool, frame: seq<byte>)
      requires Valid() && toPort <= ONES && fromPort <= ONES && IP_HEADER + UDP_HEADER + |payload| <= ONES
      modifies ip.ether.sendBuffer.bytes
      ensures ok == (route.Some? && UDP_HEADER + |payload| <= ip.sendPacketBuffer.length)
      ensures ok ==> frame == Frame(route.value, ip.ether.mac, ip.ipAddress, to, fromPort, toPort, payload)
      ensures ok ==>
        && EthernetLaidOut(frame, route.value, ip.ether.mac, 0x0800, frame[14..])
        && IpLaidOut(frame[14..], ip.ipAddress, to, 17, frame[34..])
        && UdpLaidOut(frame[34..], ip.ipAddress, to, fromPort, toPort, payload)
    {
      var v := ip.sendPacketBuffer;
      var len := UDP_HEADER + |payload|;
      if v.length < len {
        return false, [];
      }
      var _ := v.Write(UDP_HEADER, payload);
      WriteUdpHeader(v, ip.ipAddress, to, fromPort, toPort, payload, len);
      ok, frame := ip.SendPacket(to, UDP_PROTOCOL, len, route);
      if ok {
        FrameLayout(route.value, ip.ether.mac, ip.ipAddress, to, fromPort, toPort, payload);
      }
    }
  }

  method CalcChecksum(v: OffsetBuffer, len: nat, local: Ip, remote: Ip) returns (sum: nat)
    requires v.Valid() && len <= v.length
    ensures sum == Checksum(v.Shown()[..len], 6, Pseudo(len, local, remote))
  {
    sum := ComputeChecksum(v, len, 6, Pseudo(len, local, remote));
  }

  // --------------------------------------------------------------- receiving

  /** The checks of UDPHandler::handlePacket. */
  method DatagramIntact(from: Ip, d: OffsetBuffer, own: Ip) returns (ok: bool)
    requires d.Valid() && UDP_HEADER <= d.length
    ensures var data := d.Shown();
      ok == (Word(data, 4) <= |data| &&
             (Word(data, 6) == 0 || Word(data, 6) == Checksum(data, 6, Pseudo(|data|, own, from))))
  {
    var udpLength := ReadNet16(d, 4);
    var checksum := ReadNet16(d, 6);
    var sum := CalcChecksum(d, d.length, own, from);
    assert d.Shown()[..d.length] == d.Shown();
    ok := udpLength <= d.length && (checksum == 0 || checksum == sum);
  }

  /** A new view of v shows a slice of what v shows. */
  method NewView(v: OffsetBuffer, at: nat, len: nat) returns (w: OffsetBuffer)
    requires v.Valid()
    ensures w.Valid() && w.root == v.root
    ensures w.Shown() == Slice(v.Shown(), at, len)
  {
    ghost var data := v.Shown();
    w := new OffsetBuffer(View(v), at, len);
    assert v.Shown() == data;
    SliceOfSlice(v.root.bytes[..], v.base, v.length, at, len);
    assert v.Shown() == v.root.bytes[..][v.base..v.base + v.length];
    assert w.Shown() == v.root.bytes[..][w.base..w.base + w.length];
  }

  /** A slice of what a view shows is a part of the memory below. */
  lemma SliceOfSlice(m: seq<byte>, base: nat, length: nat, at: nat, len: nat)
    requires base + length <= |m|
    ensures var a := if at > length then length else at;
      var n := if 0 < len < length - a then len else length - a;
      Slice(m[base..base + length], at, len) == m[base + a..base + a + n]
  {
    var s := m[base..base + length];
    if at > length {
      assert m[base + length..base + length] == [];
    } else if 0 < len < length - at {
      Part(m, base, length, at, at + len);
    } else {
      Part(m, base, length, at, length);
      assert s[at..] == s[at..length];
    }
  }

  lemma Part(m: seq<byte>, base: nat, length: nat, i: nat, j: nat)
    requires base + length <= |m| && i <= j <= length
    ensures m[base..base + length][i..j] == m[base + i..base + j]
  {
    var x, y := m[base..base + length][i..j], m[base + i..base + j];
    assert forall k :: 0 <= k < j - i ==> x[k] == m[base + i + k] == y[k];
  }

  method ReadBytes(v: OffsetBuffer, at: nat, len: nat) returns (s: seq<byte>)
    requires v.Valid() && at + len <= v.length
    ensures s == v.Shown()[at..at + len]
  {
    var _, data := v.Read(at, len);
    s := data;
    Part(v.root.bytes[..], v.base, v.length, at, at + len);
    assert v.Shown() == v.root.bytes[..][v.base..v.base + v.length];
    assert s == v.root.bytes[..][v.base + at..v.base + at + len];
  }

  method ReadUdpHeader(d: OffsetBuffer) returns (sourcePort: nat, destinationPort: nat, datagramLength: nat)
    requires d.Valid() && UDP_HEADER <= d.length
    ensures var data := d.Shown();
      sourcePort == Word(data, 0) && destinationPort == Word(data, 2) && datagramLength == Word(data, 4)
  {
    sourcePort := ReadNet16(d, 0);
    destinationPort := ReadNet16(d, 2);
    datagramLength := ReadNet16(d, 4);
  }

  method Deliver(d: OffsetBuffer, from: Ip, sourcePort: nat, destinationPort: nat, len: nat) returns (x: Delivery)
    requires d.Valid()
    ensures x == Delivery(from, sourcePort, destinationPort, Slice(d.Shown(), UDP_HEADER, len))
  {
    var payload := NewView(d, UDP_HEADER, len);
    var bytes := ReadBytes(payload, 0, payload.length);
    assert payload.Shown()[0..payload.length] == payload.Shown();
    x := Delivery(from, sourcePort, destinationPort, bytes);
  }

  /** UDPHandler::handlePacket on a view of the datagram. */
  method HandleDatagram(from: Ip, d: OffsetBuffer, own: Ip, ports: set<nat>) returns (r: Option<Delivery>)
    requires d.Valid()
    ensures r == ReceiveUdp(from, d.Shown(), own, ports)
  {
    r := None;
    if d.length >= UDP_HEADER {
      var ok := DatagramIntact(from, d, own);
      var sourcePort, destinationPort, datagramLength := ReadUdpHeader(d);
      if ok && destinationPort in ports {
        var x := Deliver(d, from, sourcePort, destinationPort, (datagramLength - UDP_HEADER) % MOD16);
        r := Some(x);
      }
    }
  }

  /** The checks of IPHandler::handlePayload. */
  method PacketIntact(p: OffsetBuffer, own: Ip, broadcast: Ip) returns (ok: bool)
    requires p.Valid() && IP_HEADER <= p.length
    ensures var data := p.Shown();
      ok == (HeaderIntact(data) && Word(data, 2) <= |data| && (data[16..20] == own || data[16..20] == broadcast))
  {
    ghost var data := p.Shown();
    var checksum := ReadNet16(p, 10);
    var sum := ComputeChecksum(p, IP_HEADER, 10, 0);
    var len := ReadNet16(p, 2);
    var to := ReadBytes(p, 16, 4);
    ok := checksum == sum && len <= p.length && (to == own || to == broadcast);
  }

  method ReadIpHeader(p: OffsetBuffer) returns (len: nat, protocol: byte, from: Ip)
    requires p.Valid() && IP_HEADER <= p.length
    ensures var data := p.Shown();
      len == Word(data, 2) && protocol == data[9] && from == data[12..16]
  {
    len := ReadNet16(p, 2);
    var b := ReadBytes(p, 9, 1);
    from := ReadBytes(p, 12, 4);
    protocol := b[0];
  }

  method HandOver(p: OffsetBuffer, len: nat, from: Ip, host: Host) returns (r: Option<Delivery>)
    requires p.Valid()
    ensures r == ReceiveUdp(from, Slice(p.Shown(), IP_HEADER, len), host.ip, host.ports)
  {
    var packet := NewView(p, IP_HEADER, len);
    r := HandleDatagram(from, packet, host.ip, host.ports);
  }

  /** IPHandler::handlePayload, handing a UDP packet on. */
  method HandlePayload(p: OffsetBuffer, host: Host) returns (r: Option<Delivery>)
    requires p.Valid()
    ensures r == ReceivePayload(p.Shown(), host)
  {
    r := None;
    if p.length >= IP_HEADER {
      var ok := PacketIntact(p, host.ip, host.broadcast);
      var len, protocol, from := ReadIpHeader(p);
      if ok && protocol == UDP_PROTOCOL {
        r := HandOver(p, (len - IP_HEADER) % MOD16, from, host);
      }
    }
  }

  /** EtherControl::processFrame for a frame of `len` bytes in the receive buffer. */
  method ProcessFrame(recvBuffer: MemBuffer, len: nat, host: Host) returns (r: Option<Delivery>)
    requires recvBuffer.bytes.Length < MOD16
    ensures r == Receive(recvBuffer.bytes[..], len, host)
  {
    if len == 0 || recvBuffer.bytes.Length < ETHERNET_HEADER {
      return None;
    }
    ghost var data := recvBuffer.bytes[..];
    var etherType := 256 * (recvBuffer.bytes[12] as int) + recvBuffer.bytes[13] as int;
    if etherType != IP_PROTOCOL {
      return None;
    }
    var frame := new OffsetBuffer(Mem(recvBuffer), ETHERNET_HEADER, (len - ETHERNET_HEADER) % MOD16);
    assert frame.Shown() == Slice(data, ETHERNET_HEADER, (len - ETHERNET_HEADER) % MOD16);
    r := HandlePayload(frame, host);
  }
}
