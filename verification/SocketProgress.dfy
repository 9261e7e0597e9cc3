/** The stream moves: once the network lets a retransmission and its answer through, in each
    direction that waits, the data in flight is accepted and acknowledged.  And the handshake
    brings two sockets to where the stream starts. */
module SocketProgress {
  import opened Words
  import opened SocketModel
  import opened SocketStream

  /** Sequence numbers stay below 2^32, so that the plain comparisons mean what they say. */
  predicate NoWrap(base: nat, s: Sock) { base + |s.sent| < MOD32 }

  /** A tick that finds the sender waiting and makes it try again. */
  predicate TriesAgain(s: Sock, e: Event) {
    && e.act.Tick? && s.state == ESTABLISHED | AWAITING_ACK && s.attempts <= 10
    && Sub32(e.now, s.stateTime) >= 1
    && !(s.timeout > 0 && Sub32(e.now, s.stateTime) > s.timeout)
  }

  function Last(s: Sock): Segment
    requires s.out != []
  {
    s.out[|s.out| - 1]
  }

  function Deliver(to: Sock, g: Segment, script: seq<Call>, window: word, now: nat): Sock {
    Step(to, Event(Arrive(Wire(g)), script, window, now))
  }

  // -------------------------------------------------------- a retransmission

  /** g carries the last bytes of the stream, under their own sequence number. */
  predicate IsLast(g: Segment, a: Sock, ba: nat) {
    && g.opt == ACK && g.words == 5 && 1 <= |g.payload| == a.lastDataLength < MOD16 && |g.payload| <= |a.sent|
    && g.seqNo == Add32(ba, |a.sent| - |g.payload|) && g.ackNo == a.remoteSeq
    && g.payload == a.sent[|a.sent| - |g.payload|..]
  }

  lemma TickResends(a: Sock, e: Event)
    requires TriesAgain(a, e) && a.lastDataLength <= |a.stash|
    ensures Step(a, e) == ResendData(a.(script := e.script, window := e.window, attempts := (a.attempts + 1) % 256))
  {
    hide SendSegment;
  }

  lemma ResendEmits(s: Sock, b: Sock, ba: nat, bb: nat)
    requires Inv(s, b, ba, bb) && s.state == ESTABLISHED | AWAITING_ACK
    ensures var r := ResendData(s);
      && r.out != [] && IsLast(Last(r), s, ba) && r.state == s.state && r.localSeq == s.localSeq && r.sent == s.sent
      && r.accepted == s.accepted && r.remoteSeq == s.remoteSeq && r.lastDataLength == s.lastDataLength
  {
    ResendKeeps(s, b, ba, bb);
    assert Low(ESTABLISHED | AWAITING_ACK) == ESTABLISHED;
    Rewind(ba, |s.sent|, s.lastDataLength);
    hide Outs, Low;
  }

  lemma Retransmission(a: Sock, b: Sock, ba: nat, bb: nat, e: Event)
    requires Inv(a, b, ba, bb) && TriesAgain(a, e)
    ensures var r := Step(a, e);
      && r.out != [] && IsLast(Last(r), r, ba) && r.state == ESTABLISHED | AWAITING_ACK && r.localSeq == a.localSeq
      && r.sent == a.sent && r.accepted == a.accepted && r.remoteSeq == a.remoteSeq && Inv(r, b, ba, bb)
  {
    var s := a.(script := e.script, window := e.window, attempts := (a.attempts + 1) % 256);
    OthersKeep(a, s, b, ba, bb);
    TickResends(a, e);
    hide Outs, Half, Phase, CheckState, Step, IsLast, ResendData;
    ResendEmits(s, b, ba, bb);
    ResendKeeps(s, b, ba, bb);
    SameLast(s, ResendData(s), ba);
  }

  lemma SameLast(s: Sock, r: Sock, ba: nat)
    requires r.out != [] && IsLast(Last(r), s, ba) && r.sent == s.sent && r.remoteSeq == s.remoteSeq
    requires r.lastDataLength == s.lastDataLength
    ensures IsLast(Last(r), r, ba)
  {
  }

  // -------------------------------------------------------------- its answer

  /** A segment not beyond what is expected, and acknowledging nothing not sent, is looked at
      in full. */
  lemma InOrder(s: Sock, g: Segment, script: seq<Call>, window: word, now: nat)
    requires s.state == ESTABLISHED || s.state == ESTABLISHED | AWAITING_ACK
    requires g.opt == ACK && g.ackNo <= s.localSeq && (s.state == ESTABLISHED ==> g.seqNo <= s.remoteSeq)
    ensures Deliver(s, g, script, window, now) ==
      HandleEstablished(s.(script := script, window := window, remoteWindow := g.window), Wire(g), now)
  {
    hide HandleEstablished;
  }

  /** An answer: everything the peer sent is acknowledged, by a segment without data. */
  predicate Answers(r: Sock, a: Sock, b: Sock) {
    && r.out != [] && Last(r).opt == ACK && Last(r).words == 5 && Last(r).payload == []
    && Last(r).ackNo == a.localSeq && Last(r).seqNo == b.localSeq
    && r.accepted == a.sent && r.sent == b.sent && r.localSeq == b.localSeq && r.remoteSeq == a.localSeq
  }

  lemma AckAnswers(s: Sock)
    ensures var r := SendSegment(s, ACK, []);
      r == Emit(s, Segment(ACK, s.localSeq, s.remoteSeq, s.window, 5, []))
  {
  }

  /** The clearing of the flag at the end, when the callback does nothing. */
  lemma Cleared(u: Sock, now: nat)
    requires u.script == [] && Low(u.state) == ESTABLISHED
    ensures Fire(u.(state := Low(u.state)), now) == u.(state := ESTABLISHED, accept := false)
  {
    assert Fire(u.(state := Low(u.state)), now) == Exhausted(u.(state := Low(u.state)));
  }

  /** The peer has the data already: it repeats its acknowledgement. */
  lemma AnsweredAgain(b: Sock, a: Sock, g: Segment, script: seq<Call>, window: word, now: nat)
    requires b.state == ESTABLISHED || b.state == ESTABLISHED | AWAITING_ACK
    requires g.opt == ACK && g.ackNo <= b.localSeq && g.seqNo < b.remoteSeq
    requires b.accepted == a.sent && b.remoteSeq == a.localSeq
    ensures Answers(Deliver(b, g, script, window, now), a, b) && Deliver(b, g, script, window, now).state == b.state
  {
    InOrder(b, g, script, window, now);
    var s := b.(script := script, window := window, remoteWindow := g.window);
    AckAnswers(s);
    hide SendSegment, Deliver;
  }

  /** The peer takes the data now. */
  lemma AnsweredFirst(b: Sock, a: Sock, g: Segment, w: word, window: word, now: nat)
    requires b.state == ESTABLISHED || b.state == ESTABLISHED | AWAITING_ACK
    requires g.opt == ACK && g.words == 5 && 1 <= |g.payload| < MOD16 && g.ackNo <= b.localSeq
    requires g.seqNo == b.remoteSeq && b.accepted + g.payload == a.sent && Add32(g.seqNo, |g.payload|) == a.localSeq
    ensures var r := Deliver(b, g, [Done(true, w)], window, now);
      && Answers(r, a, b)
      && r.state == if g.ackNo == b.localSeq then ESTABLISHED else b.state
  {
    var script := [Done(true, w)];
    InOrder(b, g, script, window, now);
    var s := b.(script := script, window := window, remoteWindow := g.window);
    var x := Wire(g);
    assert x.recv == g.payload && PayloadSize(x) == |g.payload| && Has(ACK, ACK) && !Has(ACK, FIN);
    assert Fire(s, now) == Return(s);
    var t := SendSegment(Offer(s, x, now), ACK, []);
    AckAnswers(Offer(s, x, now));
    assert Low(ESTABLISHED) == ESTABLISHED == Low(ESTABLISHED | AWAITING_ACK);
    assert Awaiting(ESTABLISHED | AWAITING_ACK) && !Awaiting(ESTABLISHED);
    assert t.script == [] && t.state == b.state;
    Cleared(t, now);
    hide SendSegment, Deliver, Fire, Low, Has, Awaiting;
    assert TakeData(s, x, now) == t;
  }

  /** The peer's answer to a retransmission: it has the data already or takes it now, and
      acknowledges all of it; if the segment acknowledges its own data and is new, it is
      released. */
  lemma Answered(b: Sock, a: Sock, ba: nat, bb: nat, g: Segment, w: word, window: word, now: nat)
    requires Inv(a, b, ba, bb) && NoWrap(ba, a) && NoWrap(bb, b) && IsLast(g, a, ba)
    requires a.state == ESTABLISHED | AWAITING_ACK
    requires b.state == ESTABLISHED || b.state == ESTABLISHED | AWAITING_ACK
    ensures var r := Deliver(b, g, [Done(true, w)], window, now);
      && Answers(r, a, b)
      && r.state == if g.ackNo == b.localSeq && |b.accepted| < |a.sent| then ESTABLISHED else b.state
  {
    Positions(a, b, ba, bb);
    Rewind(ba, |a.sent|, |g.payload|);
    hide Outs, Phase, Half, Deliver, Answers;
    if |b.accepted| == |a.sent| {
      AnsweredAgain(b, a, g, [Done(true, w)], window, now);
    } else {
      assert a.sent == a.sent[..|a.sent| - |g.payload|] + g.payload;
      assert b.accepted == a.sent[..|a.sent| - |g.payload|];
      AnsweredFirst(b, a, g, w, window, now);
    }
  }

  /** Without wrap-around the sequence numbers are the positions. */
  lemma Positions(a: Sock, b: Sock, ba: nat, bb: nat)
    requires Inv(a, b, ba, bb) && NoWrap(ba, a) && NoWrap(bb, b)
    requires Low(a.state) == ESTABLISHED && Low(b.state) == ESTABLISHED
    ensures a.localSeq == ba + |a.sent| && b.remoteSeq == ba + |b.accepted|
    ensures b.localSeq == bb + |b.sent| && a.remoteSeq == bb + |a.accepted|
    ensures b.accepted <= a.sent && a.accepted <= b.sent
    ensures |b.accepted| == |a.sent| || |b.accepted| + a.lastDataLength == |a.sent|
    ensures |a.accepted| == |b.sent| || |a.accepted| + b.lastDataLength == |b.sent|
    ensures b.state == ESTABLISHED ==> |a.accepted| == |b.sent|
  {
  }

  /** The acknowledgement lets the sender go on when it comes from where the stream of the
      peer is expected; otherwise it changes nothing but the output. */
  lemma Released(a: Sock, h: Segment, window: word, now: nat)
    requires a.state == ESTABLISHED | AWAITING_ACK
    requires h.opt == ACK && h.words == 5 && h.payload == [] && h.ackNo == a.localSeq
    ensures var r := Deliver(a, h, [], window, now);
      && r.state == (if h.seqNo == a.remoteSeq then ESTABLISHED else a.state)
      && r.sent == a.sent && r.accepted == a.accepted && r.localSeq == a.localSeq && r.remoteSeq == a.remoteSeq
      && r.lastDataLength == a.lastDataLength && r.stash == a.stash && r.attempts == a.attempts
      && r.stateTime == a.stateTime && r.timeout == a.timeout
  {
    InOrder(a, h, [], window, now);
    var s := a.(script := [], window := window, remoteWindow := h.window);
    assert PayloadSize(Wire(h)) == 0 && Has(ACK, ACK) && !Has(ACK, FIN);
    assert Low(ESTABLISHED | AWAITING_ACK) == ESTABLISHED && Awaiting(ESTABLISHED | AWAITING_ACK);
    AckAnswers(s);
    Cleared(s, now);
    hide SendSegment, Deliver, Fire, Low, Has, Awaiting;
  }

  // ------------------------------------------------------------- round trips

  predicate Established(s: Sock) { s.state == ESTABLISHED || s.state == ESTABLISHED | AWAITING_ACK }

  /** A tick of x, the arrival of its retransmission at y, and the arrival of y's answer at x.
      y takes the data if it is offered; otherwise the applications do nothing. */
  function Exchange(x: Sock, y: Sock, tick: Event, w: word, window: word, now: nat, later: nat): (Sock, Sock) {
    var x1 := Step(x, tick);
    if x1.out == [] then (x1, y)
    else
      var y1 := Deliver(y, Last(x1), [Done(true, w)], window, now);
      if y1.out == [] then (x1, y1) else (Deliver(x1, Last(y1), [], window, later), y1)
  }

  lemma DeliveryKeeps(a: Sock, b: Sock, ba: nat, bb: nat, script: seq<Call>, window: word, now: nat)
    requires Inv(a, b, ba, bb) && Bounded(a) && Bounded(b) && b.out != [] && Clean(script) && a.state != LISTEN
    ensures var r := Deliver(a, Last(b), script, window, now); Bounded(r) ==> Inv(r, b, ba, bb)
  {
    var g := Last(b);
    assert g in b.out && Brings(g, Wire(g));
    StepKeeps(a, b, ba, bb, Event(Arrive(Wire(g)), script, window, now));
  }

  /** One exchange: y has everything x sent; x is released if it has everything y sent, and y
      if besides it had to take the data. */
  lemma ExchangeWorks(x: Sock, y: Sock, xb: nat, yb: nat, tick: Event, w: word, window: word, now: nat, later: nat)
    requires Inv(x, y, xb, yb) && NoWrap(xb, x) && NoWrap(yb, y) && TriesAgain(x, tick) && Established(y)
    ensures var (x2, y1) := Exchange(x, y, tick, w, window, now, later);
      && Inv(x2, y1, xb, yb) && Established(x2) && Established(y1)
      && x2.sent == x.sent && y1.sent == y.sent && y1.accepted == x.sent && x2.accepted == x.accepted
      && (x2.state == ESTABLISHED <==> |x.accepted| == |y.sent|)
      && (y1.state == ESTABLISHED <==> y.state == ESTABLISHED || (|x.accepted| == |y.sent| && |y.accepted| < |x.sent|))
  {
    assert Low(ESTABLISHED | AWAITING_ACK) == ESTABLISHED && Low(ESTABLISHED) == ESTABLISHED;
    assert Clean([Done(true, w)]) && Clean([]);
    Positions(x, y, xb, yb);
    hide Inv, Deliver, TriesAgain, Step, Low, Clean, IsLast;
    Retransmission(x, y, xb, yb, tick);
    var x1 := Step(x, tick);
    Answered(y, x1, xb, yb, Last(x1), w, window, now);
    var y1 := Deliver(y, Last(x1), [Done(true, w)], window, now);
    Mirrored(x1, y, xb, yb);
    DeliveryKeeps(y, x1, yb, xb, [Done(true, w)], window, now);
    Mirrored(y1, x1, yb, xb);
    Released(x1, Last(y1), window, later);
    DeliveryKeeps(x1, y1, xb, yb, [], window, later);
    AckNoOfLast(x1, xb);
  }

  lemma AckNoOfLast(x1: Sock, xb: nat)
    requires x1.out != [] && IsLast(Last(x1), x1, xb)
    ensures Last(x1).ackNo == x1.remoteSeq
  {
  }

  /** Both are ready to send, and each application has every byte the other sent. */
  predicate Settled(a: Sock, b: Sock) {
    ReadyToSend(a) && ReadyToSend(b) && a.accepted == b.sent && b.accepted == a.sent
  }

  lemma IsSettled(a: Sock, b: Sock, ba: nat, bb: nat)
    requires Inv(a, b, ba, bb) && a.state == ESTABLISHED && b.state == ESTABLISHED
    ensures Settled(a, b)
  {
    assert ReadyToSend(a) && ReadyToSend(b);
  }

  /** From any state two connected sockets can reach: when the sender waits and its peer has
      nothing in flight, one exchange settles everything. */
  lemma RoundTripCompletes(p: Pair, ms: seq<Move>, tick: Event, w: word, window: word, now: nat, later: nat)
    requires Agreed(p) && Legal(p, ms)
    requires NoWrap(p.a.localSeq, Final(p, ms).a) && NoWrap(p.b.localSeq, Final(p, ms).b)
    requires TriesAgain(Final(p, ms).a, tick) && Final(p, ms).b.state == ESTABLISHED
    ensures var q := Final(p, ms);
      var (a2, b1) := Exchange(q.a, q.b, tick, w, window, now, later);
      Settled(a2, b1) && a2.sent == q.a.sent && b1.sent == q.b.sent
  {
    RunKeeps(p, ms);
    var q := Final(p, ms);
    Quiet(q.a, q.b, p.a.localSeq, p.b.localSeq);
    hide Inv, Agreed, Legal, Exchange, TriesAgain, Settled;
    ExchangeWorks(q.a, q.b, p.a.localSeq, p.b.localSeq, tick, w, window, now, later);
    var (a2, b1) := Exchange(q.a, q.b, tick, w, window, now, later);
    IsSettled(a2, b1, p.a.localSeq, p.b.localSeq);
  }

  lemma Quiet(a: Sock, b: Sock, ba: nat, bb: nat)
    requires Inv(a, b, ba, bb) && b.state == ESTABLISHED
    ensures |a.accepted| == |b.sent|
  {
  }

  /** When both wait, whichever segments and acknowledgements were lost, one exchange in each
      direction settles everything; the second is not needed when the first settles it. */
  lemma BothComplete(p: Pair, ms: seq<Move>, tickA: Event, tickB: Event, w: word, window: word, now: nat, later: nat,
                     now2: nat, later2: nat)
    requires Agreed(p) && Legal(p, ms)
    requires NoWrap(p.a.localSeq, Final(p, ms).a) && NoWrap(p.b.localSeq, Final(p, ms).b)
    requires TriesAgain(Final(p, ms).a, tickA) && Final(p, ms).b.state == ESTABLISHED | AWAITING_ACK
    ensures var q := Final(p, ms);
      var (a2, b1) := Exchange(q.a, q.b, tickA, w, window, now, later);
      if b1.state == ESTABLISHED then Settled(a2, b1)
      else
        && b1.state == ESTABLISHED | AWAITING_ACK
        && (TriesAgain(b1, tickB) ==>
              var (b2, a3) := Exchange(b1, a2, tickB, w, window, now2, later2); Settled(a3, b2))
  {
    var q := Final(p, ms);
    var ba, bb := p.a.localSeq, p.b.localSeq;
    RunKeeps(p, ms);
    hide Inv, Agreed, Legal, Exchange, TriesAgain, Settled;
    ExchangeWorks(q.a, q.b, ba, bb, tickA, w, window, now, later);
    var (a2, b1) := Exchange(q.a, q.b, tickA, w, window, now, later);
    if b1.state == ESTABLISHED {
      IsSettled(a2, b1, ba, bb);
    } else if TriesAgain(b1, tickB) {
      Mirrored(a2, b1, ba, bb);
      ExchangeWorks(b1, a2, bb, ba, tickB, w, window, now2, later2);
      var (b2, a3) := Exchange(b1, a2, tickB, w, window, now2, later2);
      Mirrored(b2, a3, bb, ba);
      AtMost(a2, b1, ba, bb);
      IsSettled(a3, b2, ba, bb);
    }
  }

  lemma AtMost(a: Sock, b: Sock, ba: nat, bb: nat)
    requires Inv(a, b, ba, bb)
    ensures |a.accepted| <= |b.sent|
  {
  }

  // ------------------------------------------------------------- the opening

  predicate Blank(s: Sock) {
    && |s.stash| < MOD16 && s.lastDataLength == 0 && s.staleWords >= 5 && s.localSeq < MOD32
    && s.out == [] && s.sent == [] && s.accepted == []
  }

  /** What the handshake leaves alone. */
  predicate Untouched(s: Sock, r: Sock) {
    && r.timeout == s.timeout && r.stash == s.stash && r.lastDataLength == s.lastDataLength
    && r.sent == s.sent && r.accepted == s.accepted
  }

  lemma Opened(a: Sock, w: word, now: nat)
    requires a.state == CLOSED
    ensures var r := Step(a, Event(Open, [], w, now));
      && r.state == SYN_SENT && r.localSeq == Add32(a.localSeq, 1) && Untouched(a, r)
      && r.out == a.out + [Segment(SYN, a.localSeq, a.remoteSeq, w, 6, [])]
  {
    assert Has(SYN, SYN) && !Has(SYN, RST);
    hide Has;
  }

  /** The listener answers a SYN. */
  lemma SynAnswered(b: Sock, g: Segment, w: word, now: nat)
    requires b.state == LISTEN && g.opt == SYN && g.words == 6 && g.payload == []
    ensures var r := Deliver(b, g, [], w, now);
      && r.state == SYN_RECEIVED && r.localSeq == Add32(b.localSeq, 1) && r.remoteSeq == Add32(g.seqNo, 1)
      && Untouched(b, r) && r.staleWords == 6
      && r.out == b.out + [Segment(SYN | ACK, b.localSeq, r.remoteSeq, w, 6, [])]
  {
    var s := b.(script := [], window := w, remoteWindow := g.window);
    assert Has(SYN, SYN) && !Has(SYN, RST) && !Has(SYN, ACK) && Has(SYN | ACK, SYN) && !Has(SYN | ACK, RST);
    assert Unsynchronized(LISTEN) && !Synchronized(LISTEN);
    hide Has, Synchronized, Unsynchronized;
  }

  lemma Confirmed(s: Sock, now: nat)
    requires s.script == []
    ensures SetState(s, ESTABLISHED, now) == Put(s, ESTABLISHED, now).(accept := false)
  {
    var p := Put(s, ESTABLISHED, now);
    assert Fire(p, now) == Exhausted(p) && Fire(Exhausted(p), now) == Exhausted(p);
  }

  lemma SynAckIsAcceptable(s: Sock, x: Arrival)
    requires s.state == SYN_SENT && x.opt == SYN | ACK && x.ackNo == s.localSeq
    ensures !Unacceptable(s, x)
  {
    assert !Has(SYN | ACK, RST) && !Synchronized(SYN_SENT);
    hide Has, Synchronized, Unsynchronized;
  }

  lemma SynAckHandled(s: Sock, x: Arrival, now: nat)
    requires s.state == SYN_SENT && x.valid && x.opt == SYN | ACK && x.ackNo == s.localSeq && s.script == []
    ensures var l := Learn(s.(remoteWindow := x.window), x);
      HandleSegment(s, x, now) == Put(SendSegment(l, ACK, []), ESTABLISHED, now).(accept := false)
  {
    var t := s.(remoteWindow := x.window);
    SynAckIsAcceptable(t, x);
    assert SYN | ACK != SYN && ACK | SYN == SYN | ACK;
    AckAnswers(Learn(t, x));
    Confirmed(SendSegment(Learn(t, x), ACK, []), now);
    hide Unacceptable, SetState, SendSegment;
  }

  lemma SynAckAnswered(a: Sock, g: Segment, w: word, now: nat)
    requires a.state == SYN_SENT && g.opt == SYN | ACK && g.ackNo == a.localSeq && g.words == 6 && g.payload == []
    ensures var r := Deliver(a, g, [], w, now);
      && r.state == ESTABLISHED && r.localSeq == a.localSeq && r.remoteSeq == Add32(g.seqNo, 1) && Untouched(a, r)
      && r.staleWords == 5 && r.out == a.out + [Segment(ACK, a.localSeq, r.remoteSeq, w, 5, [])]
  {
    hide HandleSegment, SendSegment, Has, Learn, Wire, Add32, Low, Deliver, Untouched, Put, Emit;
    var s := a.(script := [], window := w);
    var t := s.(remoteWindow := g.window);
    Delivered(a, g, w, now);
    WireFields(g);
    SynAckHandled(s, Wire(g), now);
    Learnt(t, Wire(g));
    AckAnswers(Learn(t, Wire(g)));
    SynAckResult(t, g.seqNo, now);
    WindowUntouched(a, t, Deliver(a, g, [], w, now));
  }

  lemma Delivered(a: Sock, g: Segment, w: word, now: nat)
    ensures Deliver(a, g, [], w, now) == HandleSegment(a.(script := [], window := w), Wire(g), now)
  {
    hide HandleSegment;
  }

  lemma WindowUntouched(a: Sock, t: Sock, r: Sock)
    requires Untouched(t, r) && t == a.(script := t.script, window := t.window, remoteWindow := t.remoteWindow)
    ensures Untouched(a, r) && t.localSeq == a.localSeq && t.out == a.out
  {
  }

  lemma SynAckResult(s: Sock, seqNo: nat, now: nat)
    ensures var l := s.(remoteSeq := Add32(seqNo, 1));
      var g := Segment(ACK, l.localSeq, l.remoteSeq, l.window, 5, []);
      var r := Put(Emit(l, g), ESTABLISHED, now).(accept := false);
      && r.state == ESTABLISHED && r.localSeq == s.localSeq && r.remoteSeq == l.remoteSeq && Untouched(s, r)
      && r.staleWords == 5 && r.out == s.out + [Segment(ACK, s.localSeq, r.remoteSeq, s.window, 5, [])]
  {
    hide Low, Add32;
  }

  lemma WireFields(g: Segment)
    ensures var x := Wire(g);
      x.valid && x.opt == g.opt && x.seqNo == g.seqNo && x.ackNo == g.ackNo && x.window == g.window && x.mss == None
  {
    hide Has;
  }

  lemma Learnt(s: Sock, x: Arrival)
    requires x.mss == None
    ensures Learn(s, x) == s.(remoteSeq := Add32(x.seqNo, 1))
  {
    hide Add32;
  }

  lemma AckFinishes(b: Sock, g: Segment, w: word, now: nat)
    requires b.state == SYN_RECEIVED && g.opt == ACK && g.ackNo == b.localSeq
    ensures var r := Deliver(b, g, [], w, now);
      && r.state == ESTABLISHED && r.localSeq == b.localSeq && r.remoteSeq == b.remoteSeq && Untouched(b, r)
      && r.staleWords == b.staleWords && r.out == b.out
  {
    var s := b.(script := [], window := w, remoteWindow := g.window);
    assert !Has(ACK, RST) && Has(ACK, ACK) && ACK != SYN && Low(SYN_RECEIVED) != ESTABLISHED;
    assert Unsynchronized(SYN_RECEIVED) && !Synchronized(SYN_RECEIVED);
    Confirmed(s, now);
    hide SetState, Has, Low, Synchronized, Unsynchronized;
  }

  lemma LeavesOpening(s: Sock, g: Segment)
    requires g in s.out && g.payload == [] && (g.opt == SYN || g.opt == ACK || g.opt == SYN | ACK)
    requires g.opt == SYN || g.ackNo == s.remoteSeq
    ensures FromOpening(g, s.remoteSeq)
  {
    assert !Has(SYN, ACK) && !Has(SYN, FIN) && !Has(ACK, FIN) && !Has(SYN | ACK, FIN);
  }

  /** The three segments of a handshake that nothing disturbs bring a client and a listener to
      where the theorems about the stream start, with their segments still in the network and
      both streams starting one past the SYNs. */
  lemma HandshakeAgrees(a: Sock, b: Sock, w: word, now: nat)
    requires a.state == CLOSED && b.state == LISTEN && Blank(a) && Blank(b)
    ensures var a1 := Step(a, Event(Open, [], w, now));
      a1.out != [] &&
      var b1 := Deliver(b, Last(a1), [], w, now);
      b1.out != [] &&
      var a2 := Deliver(a1, Last(b1), [], w, now);
      a2.out != [] &&
      var b2 := Deliver(b1, Last(a2), [], w, now);
      && Agreed(Pair(a2, b2)) && |a2.out| == 2 && |b2.out| == 1
      && a2.localSeq == Add32(a.localSeq, 1) && b2.localSeq == Add32(b.localSeq, 1)
  {
    hide Deliver, Step, FromOpening, Add32;
    Opened(a, w, now);
    var a1 := Step(a, Event(Open, [], w, now));
    SynAnswered(b, Last(a1), w, now);
    var b1 := Deliver(b, Last(a1), [], w, now);
    SynAckAnswered(a1, Last(b1), w, now);
    var a2 := Deliver(a1, Last(b1), [], w, now);
    AckFinishes(b1, Last(a2), w, now);
    var b2 := Deliver(b1, Last(a2), [], w, now);
    forall g | g in a2.out ensures FromOpening(g, a2.remoteSeq) {
      LeavesOpening(a2, g);
    }
    forall g | g in b2.out ensures FromOpening(g, b2.remoteSeq) {
      LeavesOpening(b2, g);
    }
  }
}
