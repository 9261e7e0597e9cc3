/** What single entries into a socket make of every field, and how many callbacks the application
    hears: how a connection opens, what data and a FIN bring, and how it ends. */
module SocketEvents {
  import opened Words
  import opened SocketModel
  import opened SocketReactions
  import opened SocketLimits

  // ------------------------------------------------------------ callbacks

  /** The next n callbacks do nothing but return. */
  predicate Passive(s: Sock, n: nat) {
    n <= |s.script| && forall i :: 0 <= i < n ==> s.script[i].Done?
  }

  /** s after n callbacks that only return: the last of them gives the result and the window. */
  function Heard(s: Sock, n: nat): Sock
    requires Passive(s, n)
  {
    if n == 0 then s
    else s.(script := s.script[n..], accept := s.script[n - 1].accept, window := s.script[n - 1].window)
  }

  lemma HearOnce(s: Sock, now: nat)
    requires Passive(s, 1)
    ensures Fire(s, now) == Heard(s, 1)
  {
  }

  lemma HearTwice(s: Sock, now: nat)
    requires Passive(s, 2)
    ensures Fire(Fire(s, now), now) == Heard(s, 2)
  {
    assert Fire(s, now) == Return(s) && Fire(Return(s), now) == Return(Return(s));
  }

  /** A callback that sends and returns: the data goes out before it returns. */
  lemma SendsInCallback(s: Sock, data: seq<byte>, now: nat)
    requires |s.script| >= 2 && s.script[0] == Send(data) && s.script[1].Done? && Sendable(s, data)
    ensures var r := Fire(s, now);
      && r.out == s.out + [Segment(24, s.localSeq, s.remoteSeq, s.window, 5, data)] && r.sent == s.sent + data
      && r.state == s.state | 0xF0 && r.localSeq == (s.localSeq + |data|) % 0x1_0000_0000
      && r.script == s.script[2..] && r.accept == s.script[1].accept && r.window == s.script[1].window
  {
    var p := Pop(s);
    SendIff(p, data, now);
    hide DoSend, Sendable;
    assert Sendable(p, data) == Sendable(s, data) by {
      SameSendable(s, p, data);
    }
    var t := DoSend(p, data, now);
    assert Fire(s, now) == Fire(t, now) == Return(t);
  }

  lemma SameSendable(s: Sock, p: Sock, data: seq<byte>)
    requires p == s.(script := p.script)
    ensures Sendable(p, data) == Sendable(s, data)
  {
  }

  /** A callback in which something else is written into the send buffer. */
  lemma WritesInCallback(s: Sock, words: nibble, now: nat)
    requires |s.script| >= 2 && s.script[0] == OtherWrite(words) && s.script[1].Done?
    ensures Fire(s, now) == Heard(s.(script := s.script[1..], staleWords := words), 1)
  {
    var t := Overwritten(Pop(s), words);
    HearOnce(t, now);
    assert Fire(s, now) == Fire(t, now);
  }

  /** Entering CLOSED is heard once, ESTABLISHED twice, any other state not at all. */
  lemma Entered(s: Sock, state: bv8, now: nat)
    requires Passive(s, if state == CLOSED then 1 else if state == ESTABLISHED then 2 else 0)
    ensures SetState(s, state, now) ==
      Heard(Put(s, state, now), if state == CLOSED then 1 else if state == ESTABLISHED then 2 else 0)
  {
    var p := Put(s, state, now);
    if state == CLOSED {
      HearOnce(p, now);
    } else if state == ESTABLISHED {
      HearTwice(p, now);
    }
    hide Fire, Heard, Low;
  }

  // -------------------------------------------------------------- opening

  /** connect() works on a closed socket only: a SYN, a first attempt, and the clock starts. */
  lemma ConnectIs(s: Sock, now: nat)
    ensures Connect(s, now) ==
      if s.state != 11 then s
      else s.(state := 2, attempts := 1, stateTime := now, staleWords := 6,
              localSeq := (s.localSeq + 1) % 0x1_0000_0000,
              out := s.out + [Segment(2, s.localSeq, s.remoteSeq, s.window, 6, [])], edges := s.edges + [(11, 2)])
  {
    assert Has(SYN, SYN) && !Has(SYN, RST) && Low(CLOSED) == CLOSED;
    hide Has, Low;
  }

  /** The peer's number and its announced segment size. */
  function Taught(s: Sock, g: Arrival): Sock {
    s.(remoteWindow := g.window, remoteSeq := (g.seqNo + 1) % 0x1_0000_0000,
       remoteMSS := if g.words == 6 && g.mss.Some? then g.mss.value else s.remoteMSS)
  }

  /** A listener answers a pure SYN with a SYN of its own. */
  lemma ListenerAnswers(s: Sock, g: Arrival, now: nat)
    requires s.state == LISTEN && g.valid && g.opt == 2
    ensures var t := Taught(s, g);
      HandleSegment(s, g, now) ==
        t.(state := 3, attempts := 1, stateTime := now, localSeq := (s.localSeq + 1) % 0x1_0000_0000, staleWords := 6,
           out := s.out + [Segment(18, s.localSeq, t.remoteSeq, s.window, 6, [])], edges := s.edges + [(1, 3)])
  {
    assert Has(SYN, SYN) && !Has(SYN, RST) && !Has(SYN, ACK) && Has(SYN | ACK, SYN) && !Has(SYN | ACK, RST);
    assert Low(LISTEN) == LISTEN && !Synchronized(LISTEN);
    hide Has, Low, Synchronized, Unsynchronized;
  }

  /** Two SYNs that cross: the other's is acknowledged, the attempt goes on. */
  lemma CrossedSyns(s: Sock, g: Arrival, now: nat)
    requires s.state == SYN_SENT && g.valid && g.opt == 2
    ensures var t := Taught(s, g);
      HandleSegment(s, g, now) ==
        t.(state := 3, stateTime := now, staleWords := 5,
           out := s.out + [Segment(16, s.localSeq, t.remoteSeq, s.window, 5, [])], edges := s.edges + [(2, 3)])
  {
    assert Has(SYN, SYN) && !Has(SYN, RST) && !Has(SYN, ACK);
    assert Low(SYN_SENT) == SYN_SENT && !Synchronized(SYN_SENT);
    AckSends(Put(Learn(s.(remoteWindow := g.window), g), SYN_RECEIVED, now));
    hide Has, Low, Synchronized, Unsynchronized, SendSegment;
  }

  /** The answer to our SYN is acknowledged first; then the application hears that the connection
      is up and that it may send. */
  lemma SynAnsweredUp(s: Sock, g: Arrival, now: nat)
    requires s.state == SYN_SENT && g.valid && g.opt == 18 && g.ackNo == s.localSeq && Passive(s, 2)
    ensures var t := Taught(s, g);
      HandleSegment(s, g, now) ==
        Heard(t.(state := 4, stateTime := now, staleWords := 5, edges := s.edges + [(2, 4)],
                 out := s.out + [Segment(16, s.localSeq, t.remoteSeq, s.window, 5, [])]), 2)
  {
    assert !Has(SYN | ACK, RST) && ACK | SYN == 18 && SYN != 18;
    assert Low(SYN_SENT) == SYN_SENT && !Synchronized(SYN_SENT);
    var l := Learn(s.(remoteWindow := g.window), g);
    AckSends(l);
    Entered(SendSegment(l, ACK, []), ESTABLISHED, now);
    hide Has, Low, Synchronized, Unsynchronized, SendSegment, SetState, Heard, Passive;
  }

  /** An acknowledgement of everything sent, in the words of AfterAck: what is heard depends on
      the state that is reached. */
  lemma AckHeard(s: Sock, g: Arrival, now: nat)
    requires Unsettled(s.state) && Plain(s, g) && AckBit(g.opt) && g.ackNo == s.localSeq && AfterAck(s) != s.state
    requires Passive(s, if AfterAck(s) == 11 then 1 else if AfterAck(s) == 4 then 2 else 0)
    ensures HandleSegment(s, g, now) ==
      Heard(s.(remoteWindow := g.window, state := AfterAck(s), stateTime := now,
               edges := s.edges + [(s.state, AfterAck(s))]),
            if AfterAck(s) == 11 then 1 else if AfterAck(s) == 4 then 2 else 0)
  {
    Bits(g.opt);
    NotOpening(g.opt);
    assert Low(s.state) == s.state;
    Entered(Noted(s, g), AfterAck(s), now);
    hide Has, SetState, Heard, Low, Passive;
    assert AfterAck(Noted(s, g)) == AfterAck(s);
  }

  // ----------------------------------------------------------------- ending

  /** How often the return to the idle state is heard. */
  function Ends(s: Sock): nat { if s.host then 0 else 1 }

  /** close(): a FIN and the next state, heard once; nothing at all on a socket that is closed on
      its side. */
  lemma CloseHeard(s: Sock, now: nat)
    requires Passive(s, 1)
    ensures DoClose(s, now) ==
      if s.state in {1, 5, 6, 8, 9, 10, 11} then s
      else
        var next := if s.state & 0x0F == 4 || s.state == 3 then 5 else if s.state == 7 then 9 else s.state;
        var t := s.(attempts := 1, localSeq := (s.localSeq + 1) % 0x1_0000_0000,
                    out := s.out + [Segment(17, s.localSeq, s.remoteSeq, s.window, s.staleWords, [])]);
        Heard(if next == s.state then t
              else t.(state := next, stateTime := now, edges := s.edges + [(s.state & 0x0F, next)]), 1)
  {
    assert !Has(FIN | ACK, RST) && !Has(FIN | ACK, SYN) && Has(FIN | ACK, FIN) && FIN | ACK == 17;
    if !LocalClosed(s) {
      HearOnce(FinStep(s, now), now);
    }
    hide Has, Fire, Heard;
  }

  /** An abort sends a reset, unless the connection has only TIME_WAIT left, and goes back to the
      idle state. */
  lemma AbortHeard(s: Sock, now: nat)
    requires Passive(s, if s.state == 10 then Ends(s) else 1 + Ends(s))
    ensures DoForceClose(s, now) ==
      (if s.state == 10 then Heard(Put(s, Idle(s), now), Ends(s))
       else Heard(Put(Emit(s, RstWith(s, s.localSeq, s.remoteSeq)), Idle(s), now), 1 + Ends(s)))
  {
    if s.state == 10 {
      Entered(s, Idle(s), now);
    } else {
      ResetHeard(s, s.localSeq, s.remoteSeq, now);
      var r := Emit(s, RstWith(s, s.localSeq, s.remoteSeq));
      Entered(Heard(r, 1), Idle(s), now);
    }
    hide Reset, RstWith, Low;
  }

  lemma ResetHeard(s: Sock, q: nat, a: nat, now: nat)
    requires Passive(s, 1)
    ensures Reset(s, q, a, now) == Heard(Emit(s, RstWith(s, q, a)), 1)
  {
    assert !Has(RST | ACK, SYN) && !Has(RST, SYN) && !Has(RST | ACK, FIN) && !Has(RST, FIN);
    assert Has(RST | ACK, RST) && Has(RST, RST);
    HearOnce(EmitReset(s, q, a), now);
    hide Has, Fire, Heard;
  }

  /** Segments that nothing expects are answered with a reset, which is heard once. */
  lemma RefusalHeard(s: Sock, g: Arrival, now: nat)
    requires Passive(s, 1) && g.valid && !RstBit(g.opt)
    requires s.state == CLOSED || (s.state == LISTEN && !SynBit(g.opt))
    ensures var u := Noted(s, g);
      HandleSegment(s, g, now) ==
        Heard(Emit(u, if AckBit(g.opt) then RstWith(u, g.ackNo, 0)
                      else RstWith(u, 0, (g.seqNo + g.size) % 0x1_0000_0000)), 1)
  {
    Bits(g.opt);
    var u := Noted(s, g);
    ResetHeard(u, g.ackNo, 0, now);
    ResetHeard(u, 0, Add32(g.seqNo, g.size), now);
    hide Has, Reset, RstWith, Heard;
  }

  /** A peer's reset is heard once, and the return to CLOSED as well; a listener whose handshake
      was reset hears nothing. */
  lemma EndByResetHeard(s: Sock, g: Arrival, now: nat)
    requires ResetArrives(s, g) && g.seqNo == s.remoteSeq
    requires Passive(s, if s.state == 3 then Ends(s) else 1 + Ends(s))
    ensures HandleSegment(s, g, now) ==
      Heard(Put(Noted(s, g), Idle(s), now), if s.state == 3 then Ends(s) else 1 + Ends(s))
  {
    Bits(g.opt);
    var u := Noted(s, g);
    Entered(u, Idle(u), now);
    var p := Put(u, Idle(u), now);
    if s.state != 3 {
      HearOnce(Heard(p, Ends(s)), now);
    }
    hide Has, SetState, Fire, Low;
  }

  // ------------------------------------------------------------ the data phase

  /** A segment in order in the data phase, in the words of the previous module. */
  predicate InOrder(s: Sock, g: Arrival) {
    Connected(s) && g.valid && !RstBit(g.opt) && AckBit(g.opt) && g.seqNo == s.remoteSeq && g.ackNo <= s.localSeq
  }

  /** Whether it acknowledges data that was waiting for it. */
  predicate Releases(s: Sock, g: Arrival) { s.state == 0xF4 && g.ackNo == s.localSeq }

  /** The end of handling a segment: the flag goes and the application hears that it may send. */
  function Released(s: Sock, r: Sock, g: Arrival): Sock
    requires Passive(r, if Releases(s, g) then 1 else 0)
  {
    if Releases(s, g) then Heard(r.(state := r.state & 0x0F), 1) else r
  }

  lemma ReleasedIs(s: Sock, r: Sock, g: Arrival, now: nat)
    requires Connected(s) && Passive(r, if Releases(s, g) then 1 else 0)
    ensures Low(s.state) == 4
    ensures Released(s, r, g) ==
      if g.ackNo == s.localSeq && Awaiting(s.state) then Fire(r.(state := Low(r.state)), now) else r
  {
    if Releases(s, g) {
      HearOnce(r.(state := Low(r.state)), now);
    }
    hide Fire, Heard;
  }

  /** The handling of a segment in order: its data, its FIN, its acknowledgement. */
  lemma HandledInOrder(s: Sock, g: Arrival, t: Sock, r: Sock, now: nat)
    requires InOrder(s, g) && Passive(r, if Releases(s, g) then 1 else 0)
    requires t == if PayloadSize(g) > 0 then TakeData(Noted(s, g), g, now) else Noted(s, g)
    requires r == if FinBit(g.opt) then TakeFin(t, g, now) else t
    ensures HandleSegment(s, g, now) == Released(s, r, g)
  {
    hide Has, Low, Fire, Released, SendSegment, Awaiting, TakeFin, TakeData, Passive;
    Bits(g.opt);
    ReleasedIs(s, r, g, now);
  }

  lemma InDataPhase(s: Sock)
    requires Connected(s)
    ensures Low(s.state) == 4
  {
  }

  lemma FinBefore(s: Sock, g: Arrival, now: nat)
    requires Passive(s, 1) && g.recv != [] && FinBit(g.opt)
    ensures var n := s.(remoteSeq := Add32(s.remoteSeq, 1));
      TakeData(s, g, now) == SendSegment(Offer(n, g, now), ACK, [])
  {
    Bits(g.opt);
    hide Has, SendSegment, Offer;
  }

  /** A bare acknowledgement only releases. */
  lemma AckReleases(s: Sock, g: Arrival, now: nat)
    requires InOrder(s, g) && !FinBit(g.opt) && PayloadSize(g) == 0 && Passive(s, if Releases(s, g) then 1 else 0)
    ensures HandleSegment(s, g, now) == Released(s, Noted(s, g), g)
  {
    HandledInOrder(s, g, Noted(s, g), Noted(s, g), now);
  }

  /** Data in order is offered once.  If it is taken, the number behind it is expected next, the
      bytes join the stream and the clock starts again; if not, nothing moves.  Either way the
      answer says what is expected. */
  lemma DataHeard(s: Sock, g: Arrival, now: nat)
    requires InOrder(s, g) && !FinBit(g.opt) && 4 * g.words < g.size < 0x1_0000 && g.recv != []
    requires Passive(s, if Releases(s, g) then 2 else 1)
    ensures var d := s.script[0];
      var h := Noted(s, g).(script := s.script[1..], accept := d.accept, window := d.window);
      var t := if !d.accept then h
               else h.(remoteSeq := (s.remoteSeq + (g.size - 4 * g.words)) % 0x1_0000_0000,
                       accepted := s.accepted + g.recv, stateTime := now);
      HandleSegment(s, g, now) ==
        Released(s, t.(out := s.out + [Segment(16, s.localSeq, t.remoteSeq, d.window, 5, [])], staleWords := 5), g)
  {
    hide HandleSegment, Has, Fire, Released, SendSegment;
    Bits(g.opt);
    var u := Noted(s, g);
    HearOnce(u, now);
    var t := Offer(u, g, now);
    AckSends(t);
    assert TakeData(u, g, now) == SendSegment(t, ACK, []);
    HandledInOrder(s, g, Emit(t, BareAck(t)), Emit(t, BareAck(t)), now);
  }

  /** A FIN in order, without data, is acknowledged, and the end of the peer's stream heard once. */
  lemma FinHeard(s: Sock, g: Arrival, now: nat)
    requires InOrder(s, g) && FinBit(g.opt) && PayloadSize(g) == 0
    requires Passive(s, if Releases(s, g) then 2 else 1)
    ensures var n := (s.remoteSeq + 1) % 0x1_0000_0000;
      HandleSegment(s, g, now) ==
        Released(s, Heard(Noted(s, g).(state := 7, stateTime := now, remoteSeq := n, staleWords := 5,
                                       out := s.out + [Segment(16, s.localSeq, n, s.window, 5, [])],
                                       edges := s.edges + [(4, 7)]), 1), g)
  {
    hide HandleSegment, Has, Low, Fire, Released, SendSegment, TakeFin, TakeData;
    var u := Noted(s, g);
    var n := u.(remoteSeq := Add32(u.remoteSeq, 1));
    AckSends(n);
    var v := Emit(n, BareAck(n));
    LeavesForCloseWait(u, g, v, now);
    InDataPhase(s);
    HandledInOrder(s, g, u, Heard(Put(v, CLOSE_WAIT, now), 1), now);
  }

  lemma LeavesForCloseWait(u: Sock, g: Arrival, v: Sock, now: nat)
    requires Connected(u) && v.state == u.state && Passive(v, 1)
    requires if PayloadSize(g) == 0 then v == SendSegment(u.(remoteSeq := Add32(u.remoteSeq, 1)), ACK, []) else u == v
    ensures TakeFin(u, g, now) == Heard(Put(v, CLOSE_WAIT, now), 1)
  {
    assert Low(u.state) == ESTABLISHED && v.state != FIN_WAIT_1 && v.state != FIN_WAIT_2;
    Entered(v, CLOSE_WAIT, now);
    HearOnce(Put(v, CLOSE_WAIT, now), now);
    hide Low, SendSegment, Fire, Has, SetState, Heard;
  }

  /** A FIN with data.  If the data is taken, the FIN itself is not counted; if it is refused, the
      one number that is counted is the FIN's. */
  lemma FinWithDataHeard(s: Sock, g: Arrival, now: nat)
    requires InOrder(s, g) && FinBit(g.opt) && 4 * g.words < g.size < 0x1_0000 && g.recv != []
    requires Passive(s, if Releases(s, g) then 3 else 2)
    ensures var d := s.script[0];
      var h := Noted(s, g).(script := s.script[1..], accept := d.accept, window := d.window);
      var t := if !d.accept then h.(remoteSeq := (s.remoteSeq + 1) % 0x1_0000_0000)
               else h.(remoteSeq := (s.remoteSeq + (g.size - 4 * g.words)) % 0x1_0000_0000,
                       accepted := s.accepted + g.recv);
      HandleSegment(s, g, now) ==
        Released(s, Heard(t.(state := 7, stateTime := now, staleWords := 5,
                             out := s.out + [Segment(16, s.localSeq, t.remoteSeq, d.window, 5, [])],
                             edges := s.edges + [(4, 7)]), 1), g)
  {
    hide HandleSegment, Has, Low, Fire, Released, SendSegment, TakeFin, TakeData;
    var u := Noted(s, g);
    var n := u.(remoteSeq := Add32(u.remoteSeq, 1));
    HearOnce(n, now);
    var t := Offer(n, g, now);
    AckSends(t);
    var v := Emit(t, BareAck(t));
    FinBefore(u, g, now);
    LeavesForCloseWait(v, g, v, now);
    InDataPhase(s);
    HandledInOrder(s, g, v, Heard(Put(v, CLOSE_WAIT, now), 1), now);
  }
}
