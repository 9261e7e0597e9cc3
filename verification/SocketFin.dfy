/** A FIN goes out with byte 12 of the send buffer, the header length, as the last writer of
    that buffer left it; and sockets are not the only ones that write into it. */
module SocketFin {
  import opened Words
  import opened Checksums
  import opened Internet
  import opened Buffers
  import opened SocketModel
  import opened SocketReads
  import opened TcpWire
  import Dns

  /** The FIN of a connected peer, in order, at a socket that takes whatever data it is
      offered. */
  predicate FinFor(s: Sock, b: seq<byte>) {
    && Low(s.state) == ESTABLISHED && TCP_HEADER <= |b| && Flags(b[13]) == FIN | ACK
    && Quad(b, 4) == s.remoteSeq && Quad(b, 8) <= s.localSeq
    && s.script != [] && s.script[0].Done? && s.script[0].accept
  }

  /** What a FIN, which carries no data, makes its receiver accept: nothing exactly when the
      length in byte 12 is not less than the 5 words of a header, and otherwise the header
      from that length on. */
  lemma FinBringsDataIff(s: Sock, b: seq<byte>, from: Ip, to: Ip, now: nat)
    requires FinFor(s, b) && Sealed(b, TCP_HEADER, from, to)
    ensures var r := HandleSegment(s, Received(b[..TCP_HEADER], to, from), now);
      && (r.accepted == s.accepted <==> b[12] / 16 >= 5)
      && (b[12] / 16 < 5 ==> r.accepted == s.accepted + b[4 * (b[12] / 16)..TCP_HEADER])
  {
    var g, at := Received(b[..TCP_HEADER], to, from), 4 * (b[12] / 16);
    assert Has(FIN | ACK, ACK) && !Has(FIN | ACK, RST) && !Has(FIN | ACK, SYN);
    hide Checksum, Flags, Word, Quad, Has, Low, MssOption;
    HeadFields(b, TCP_HEADER);
    if at < TCP_HEADER {
      assert g.recv == b[..TCP_HEADER][at..] == b[at..TCP_HEADER];
    } else {
      assert g.recv == [];
    }
    FinTaken(s, g, now);
  }

  lemma FinTaken(s: Sock, g: Arrival, now: nat)
    requires Low(s.state) == ESTABLISHED && s.script != [] && s.script[0].Done? && s.script[0].accept
    requires g.valid && g.opt == FIN | ACK && g.seqNo == s.remoteSeq && g.ackNo <= s.localSeq && g.size == TCP_HEADER
    requires g.words < 16 && |g.recv| == if 4 * g.words <= TCP_HEADER then TCP_HEADER - 4 * g.words else 0
    ensures HandleSegment(s, g, now).accepted == s.accepted + g.recv
  {
    FinAcceptable(s, g);
    ArrivalTakes(s, g, now);
    assert Has(FIN | ACK, ACK);
    hide HandleSegment, Unacceptable, Has, Low;
    assert g.recv != [] ==> PayloadSize(g) == |g.recv|;
    assert g.recv == [] ==> s.accepted + g.recv == s.accepted;
  }

  lemma FinAcceptable(s: Sock, g: Arrival)
    requires Low(s.state) == ESTABLISHED && g.opt == FIN | ACK && g.seqNo == s.remoteSeq && g.ackNo <= s.localSeq
    ensures !Unacceptable(s, g)
  {
    assert s.state != CLOSED && s.state != LISTEN && s.state != SYN_SENT && s.state != SYN_RECEIVED;
    assert !Has(FIN | ACK, RST);
    hide Has, Low;
  }

  // --------------------------------------------- how such a FIN comes about

  /** Another user of the IP payload buffer writes a datagram, and the socket closes: the FIN
      carries what the datagram left in byte 12. */
  lemma CloseAfterOtherWrite(s: Sock, words: nibble, window: word, now: nat)
    requires Low(s.state) == ESTABLISHED && s.localSeq < MOD32
    ensures var r := Run(s, [Event(Api(OtherWrite(words)), [], window, now), Event(Api(Close), [], window, now)]);
      r.out == s.out + [Segment(FIN | ACK, s.localSeq, s.remoteSeq, window, words, [])] && r.state == FIN_WAIT_1
  {
    var first, last := Event(Api(OtherWrite(words)), [], window, now), Event(Api(Close), [], window, now);
    assert [first, last][..1] == [first] && [first][..0] == [];
    var t := s.(script := [], window := window, staleWords := words);
    assert Run(s, [first]) == t;
    assert !LocalClosed(t) && !Has(FIN | ACK, RST) && !Has(FIN | ACK, SYN) && Has(FIN | ACK, FIN);
    hide Has, Low;
    var f := FinStep(t, now);
    assert Fire(f, now) == Exhausted(f);
  }

  /** The IP payload buffer after a DNS query has been written into it: the datagram starts at
      the front of the buffer, and its payload behind its 8 bytes of header. */
  function QueryWritten(b: seq<byte>, from: Ip, server: Ip, id: nat, name: seq<byte>): seq<byte>
    requires id < MOD16 && UDP_HEADER + |Dns.RequestHeader(id) + Dns.Question(name)| <= ONES
    requires UDP_HEADER + |Dns.RequestHeader(id) + Dns.Question(name)| <= |b|
  {
    Blit(b, 0, Datagram(from, server, 53, 53, Dns.RequestHeader(id) + Dns.Question(name)))
  }

  /** Byte 12 is then the high byte of the number of questions. */
  lemma QueryLeavesZero(b: seq<byte>, from: Ip, server: Ip, id: nat, name: seq<byte>)
    requires id < MOD16 && UDP_HEADER + |Dns.RequestHeader(id) + Dns.Question(name)| <= ONES
    requires UDP_HEADER + |Dns.RequestHeader(id) + Dns.Question(name)| <= |b|
    ensures QueryWritten(b, from, server, id, name)[12] == 0
  {
    var p := Dns.RequestHeader(id) + Dns.Question(name);
    var d := Datagram(from, server, 53, 53, p);
    UdpIntact(from, server, 53, 53, p);
    assert d[12] == d[UDP_HEADER..][4] == p[4] == Dns.RequestHeader(id)[4] == 0;
  }

  /** A host sends a DNS query and then closes a connection.  The FIN's header is written over
      the query, all but byte 12, and the peer's application is handed the 20 bytes of that
      header as data. */
  lemma QueryThenClose(b: seq<byte>, c: seq<byte>, from: Ip, server: Ip, id: nat, name: seq<byte>, to: Ip,
                       localPort: word, remotePort: word, q: nat, a: nat, window: word, peer: Sock, now: nat)
    requires id < MOD16 && UDP_HEADER + |Dns.RequestHeader(id) + Dns.Question(name)| <= ONES
    requires UDP_HEADER + |Dns.RequestHeader(id) + Dns.Question(name)| <= |b|
    requires q == peer.remoteSeq < MOD32 && a <= peer.localSeq && a < MOD32 && TCP_HEADER <= |c|
    requires c[..16] ==
      Start(localPort, remotePort, q, a, QueryWritten(b, from, server, id, name)[12], FIN | ACK, window)
    requires Sealed(c, TCP_HEADER, from, to)
    requires Low(peer.state) == ESTABLISHED && peer.script != [] && peer.script[0].Done? && peer.script[0].accept
    ensures HandleSegment(peer, Received(c[..TCP_HEADER], to, from), now).accepted == peer.accepted + c[..TCP_HEADER]
  {
    QueryLeavesZero(b, from, server, id, name);
    HeaderComesBack(c, localPort, remotePort, q, a, 0, FIN | ACK, window, 0);
    assert Emitted(c, 0).opt == FIN | ACK && Emitted(c, 0).seqNo == q && Emitted(c, 0).ackNo == a;
    StartLead(localPort, remotePort, q, a, 0, window);
    assert c[12] == c[..16][12] == 0;
    hide Start, QueryWritten, Sealed, Received, HandleSegment, Low;
    FinBringsDataIff(peer, c, from, to, now);
  }

  lemma StartLead(localPort: word, remotePort: word, q: nat, a: nat, lead: byte, window: word)
    requires q < MOD32 && a < MOD32
    ensures Start(localPort, remotePort, q, a, lead, FIN | ACK, window)[12] == lead
  {
  }
}
