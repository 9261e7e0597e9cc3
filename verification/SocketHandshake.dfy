/** The three-way handshake over every run in which the application does not close
    the socket meanwhile and no timeout is set: one attempt uses one sequence
    number, and only an acknowledgement of exactly that number establishes it. */
module SocketHandshake {
  import opened Words
  import opened SocketModel
  import opened SocketKeeps

  predicate InHandshake(state: bv8) { state == SYN_SENT || state == SYN_RECEIVED }

  /** A socket and the position in its output where its latest attempt to connect or
      to accept a connection began. */
  datatype Attempt = Attempt(s: Sock, start: nat)

  function Track(t: Attempt, e: Event): Attempt {
    var r := Step(t.s, e);
    Attempt(r, if InHandshake(r.state) && !InHandshake(t.s.state) then |t.s.out| else t.start)
  }

  function Tracked(s: Sock, es: seq<Event>): Attempt {
    if es == [] then Attempt(s, 0) else Track(Tracked(s, es[..|es| - 1]), es[|es| - 1])
  }

  predicate KeepsOpen(s: Sock, e: Event) {
    InHandshake(s.state) ==> NoClose(e.script) && e.act != Api(Close)
  }

  predicate Uninterrupted(s: Sock, es: seq<Event>) {
    es != [] ==>
      Uninterrupted(s, es[..|es| - 1]) && KeepsOpen(Tracked(s, es[..|es| - 1]).s, es[|es| - 1])
  }

  predicate Begun(s: Sock) {
    s.state == Idle(s) && s.timeout == 0 && s.out == [] && s.localSeq < MOD32
  }

  /** Every SYN of the attempt has the first one's sequence number, and localSeq is
      one past it. */
  ghost predicate OneNumber(t: Attempt) {
    && t.start < |t.s.out|
    && Has(t.s.out[t.start].opt, SYN) && t.s.out[t.start].seqNo < MOD32
    && t.s.localSeq == Add32(t.s.out[t.start].seqNo, 1)
    && forall i :: t.start <= i < |t.s.out| && Has(t.s.out[i].opt, SYN) ==>
         t.s.out[i].seqNo == t.s.out[t.start].seqNo
  }

  // ---------------------------------------------- what follows from a state

  /** From s to x no SYN went out, nothing became established and no new attempt began. */
  ghost predicate After(s: Sock, x: Sock) {
    && x.host == s.host && x.timeout == s.timeout
    && (x.state == s.state || !InHandshake(Low(x.state)))
    && (s.localSeq < MOD32 ==> x.localSeq < MOD32)
    && s.out <= x.out && (forall i :: |s.out| <= i < |x.out| ==> !Has(x.out[i].opt, SYN))
    && s.edges <= x.edges && (forall i :: |s.edges| <= i < |x.edges| ==> x.edges[i].1 != ESTABLISHED)
  }

  /** Besides, in a handshake and without close(), localSeq stands still. */
  ghost predicate Still(s: Sock, x: Sock) {
    && After(s, x) && NoClose(x.script) && x.localSeq == s.localSeq
    && (x.state == s.state || x.state == Idle(s))
  }

  lemma AfterTrans(s: Sock, x: Sock, y: Sock)
    requires After(s, x) && After(x, y)
    ensures After(s, y)
  {
  }

  lemma AfterSend(s: Sock, control: bv8, payload: seq<byte>, q: nat, a: nat)
    requires !Has(control, SYN) && (payload != [] ==> !InHandshake(Low(s.state)))
    ensures After(s, SendSegment(s, control, payload, q, a))
  {
  }

  lemma AfterPut(s: Sock, state: bv8, now: nat)
    requires !InHandshake(Low(state)) && state != ESTABLISHED
    ensures After(s, Put(s, state, now))
  {
  }

  lemma AfterDoSend(s: Sock, data: seq<byte>, now: nat)
    ensures After(s, DoSend(s, data, now))
  {
  }

  lemma AfterReset(s: Sock, q: nat, a: nat)
    ensures After(s, EmitReset(s, q, a))
  {
  }

  lemma AfterScript(s: Sock, x: Sock)
    requires After(s, x)
    ensures x.script == [] ==> After(s, Exhausted(x))
    ensures x.script != [] ==> After(s, Pop(x))
    ensures x.script != [] && x.script[0].Done? ==> After(s, Return(x))
  {
  }

  lemma AfterOverwritten(s: Sock, x: Sock, words: nibble)
    requires After(s, x)
    ensures After(s, Overwritten(x, words))
  {
  }

  lemma StableAfter(s: Sock, now: nat)
    ensures Stable(x => After(s, x), now)
  {
    forall x: Sock | After(s, x)
      ensures x.script == [] ==> After(s, Exhausted(x))
      ensures x.script != [] ==> After(s, Pop(x))
      ensures x.script != [] && x.script[0].Done? ==> After(s, Return(x))
    {
      AfterScript(s, x);
    }
    forall x: Sock, words: nibble | After(s, x) ensures After(s, Overwritten(x, words)) {
      AfterOverwritten(s, x, words);
    }
    forall x: Sock, data: seq<byte> | After(s, x) ensures After(s, DoSend(x, data, now)) {
      AfterDoSend(x, data, now);
      AfterTrans(s, x, DoSend(x, data, now));
    }
    forall x: Sock | After(s, x) ensures After(s, Put(x, Idle(x), now)) {
      AfterPut(x, Idle(x), now);
      AfterTrans(s, x, Put(x, Idle(x), now));
    }
    forall x: Sock, q: nat, a: nat | After(s, x) ensures After(s, EmitReset(x, q, a)) {
      AfterReset(x, q, a);
      AfterTrans(s, x, EmitReset(x, q, a));
    }
    forall x: Sock | After(s, x) && x.script != [] && x.script[0].Close? && !LocalClosed(x)
      ensures After(s, FinStep(Pop(x), now))
    {
      AfterFin(Pop(x), now);
      AfterTrans(s, Pop(x), FinStep(Pop(x), now));
    }
  }

  lemma AfterFin(s: Sock, now: nat)
    ensures After(s, FinStep(s, now))
  {
    var t := SendSegment(s, FIN | ACK, []).(attempts := 1);
    AfterSend(s, FIN | ACK, [], 0, 0);
    assert After(s, t);
    AfterPut(t, FIN_WAIT_1, now);
    AfterPut(t, LAST_ACK, now);
    if FinStep(s, now) != t {
      AfterTrans(s, t, FinStep(s, now));
    }
  }

  lemma StillScript(s: Sock, x: Sock, now: nat)
    requires InHandshake(s.state) && Still(s, x)
    ensures x.script == [] ==> Still(s, Exhausted(x))
    ensures x.script != [] ==> Still(s, Pop(x)) && !x.script[0].Close?
    ensures x.script != [] && x.script[0].Done? ==> Still(s, Return(x))
    ensures Still(s, Put(x, Idle(x), now))
  {
    AfterScript(s, x);
    AfterPut(x, Idle(x), now);
    AfterTrans(s, x, Put(x, Idle(x), now));
  }

  lemma StillSends(s: Sock, x: Sock, data: seq<byte>, q: nat, a: nat, now: nat)
    requires InHandshake(s.state) && Still(s, x)
    ensures Still(s, DoSend(x, data, now)) && Still(s, EmitReset(x, q, a))
  {
    assert DoSend(x, data, now) == x;
    AfterReset(x, q, a);
    AfterTrans(s, x, EmitReset(x, q, a));
  }

  lemma StillOverwritten(s: Sock, x: Sock, words: nibble)
    requires Still(s, x)
    ensures Still(s, Overwritten(x, words))
  {
  }

  lemma StableStill(s: Sock, now: nat)
    requires InHandshake(s.state)
    ensures Stable(x => Still(s, x), now)
  {
    hide Still, InHandshake, DoSend, EmitReset, FinStep, Put, Pop, Return, Exhausted, Overwritten, LocalClosed;
    forall x: Sock | Still(s, x)
      ensures x.script == [] ==> Still(s, Exhausted(x))
      ensures x.script != [] ==> Still(s, Pop(x)) && !x.script[0].Close?
      ensures x.script != [] && x.script[0].Done? ==> Still(s, Return(x))
      ensures Still(s, Put(x, Idle(x), now))
    {
      StillScript(s, x, now);
    }
    forall x: Sock, words: nibble | Still(s, x) ensures Still(s, Overwritten(x, words)) {
      StillOverwritten(s, x, words);
    }
    forall x: Sock, data: seq<byte> | Still(s, x) ensures Still(s, DoSend(x, data, now)) {
      StillSends(s, x, data, 0, 0, now);
    }
    forall x: Sock, q: nat, a: nat | Still(s, x) ensures Still(s, EmitReset(x, q, a)) {
      StillSends(s, x, [], q, a, now);
    }
  }

  lemma AfterFire(s: Sock, now: nat)
    ensures After(s, Fire(s, now))
  {
    StableAfter(s, now);
    FireKeeps(x => After(s, x), s, now);
  }

  lemma AfterCallbacks(s: Sock, now: nat)
    ensures After(s, Fire(s, now)) && After(s, DoForceClose(s, now)) && After(s, DoClose(s, now))
    ensures After(s, Abandon(s, now)) && After(s, Fire(Abandon(s, now), now))
    ensures forall q: nat, a: nat :: After(s, Reset(s, q, a, now))
  {
    var P := x => After(s, x);
    StableAfter(s, now);
    FireKeeps(P, s, now);
    ForceCloseKeeps(P, s, now);
    AbandonKeeps(P, s, now);
    FireKeeps(P, Abandon(s, now), now);
    AfterFin(s, now);
    FireKeeps(P, FinStep(s, now), now);
    forall q: nat, a: nat ensures P(Reset(s, q, a, now)) {
      ResetKeeps(P, s, q, a, now);
    }
  }

  lemma StillCallbacks(s: Sock, now: nat)
    requires InHandshake(s.state) && NoClose(s.script)
    ensures Still(s, DoForceClose(s, now))
    ensures Still(s, Abandon(s, now)) && Still(s, Fire(Abandon(s, now), now))
    ensures forall q: nat, a: nat :: Still(s, Reset(s, q, a, now))
  {
    var P := x => Still(s, x);
    StableStill(s, now);
    ForceCloseKeeps(P, s, now);
    AbandonKeeps(P, s, now);
    FireKeeps(P, Abandon(s, now), now);
    forall q: nat, a: nat ensures P(Reset(s, q, a, now)) {
      ResetKeeps(P, s, q, a, now);
    }
  }

  // ------------------------------------------------ from outside a handshake

  lemma AfterTakeData(s: Sock, g: Arrival, now: nat)
    ensures After(s, TakeData(s, g, now))
  {
    var t := if Has(g.opt, FIN) then s.(remoteSeq := Add32(s.remoteSeq, 1)) else s;
    AfterCallbacks(t, now);
    var f := if g.recv != [] then Offer(t, g, now) else t;
    assert After(s, f);
    AfterSend(f, ACK, [], 0, 0);
    AfterTrans(s, f, TakeData(s, g, now));
  }

  /** The state change a FIN brings. */
  function FinState(s: Sock, g: Arrival): bv8 {
    if s.state == FIN_WAIT_1 then
      if Has(g.opt, ACK) && g.ackNo == s.localSeq then TIME_WAIT else CLOSING
    else if s.state == FIN_WAIT_2 then TIME_WAIT
    else CLOSE_WAIT
  }

  lemma AfterAck(s: Sock)
    ensures After(s, SendSegment(s, ACK, []))
  {
    AfterSend(s, ACK, [], 0, 0);
  }

  lemma AfterTakeFin(s: Sock, g: Arrival, now: nat)
    ensures After(s, TakeFin(s, g, now))
  {
    hide Fire, SetState, Has, Low, SendSegment;
    var w := s.(remoteSeq := Add32(s.remoteSeq, 1));
    AfterAck(w);
    var t := if PayloadSize(g) == 0 then SendSegment(w, ACK, []) else s;
    assert After(s, t);
    AfterFinState(t, g, now);
    AfterTrans(s, t, TakeFin(s, g, now));
  }

  lemma AfterFinState(t: Sock, g: Arrival, now: nat)
    ensures t.state == FIN_WAIT_1 || t.state == FIN_WAIT_2 || Low(t.state) == ESTABLISHED ==>
              After(t, Fire(SetState(t, FinState(t, g), now), now))
    ensures After(t, Fire(t, now))
  {
    AfterFire(t, now);
    var u := Put(t, FinState(t, g), now);
    AfterPut(t, FinState(t, g), now);
    AfterFire(u, now);
    AfterTrans(t, u, Fire(u, now));
  }

  lemma AfterClear(s: Sock, now: nat)
    requires !InHandshake(Low(s.state))
    ensures After(s, Fire(s.(state := Low(s.state)), now))
  {
    AfterFire(s.(state := Low(s.state)), now);
  }

  lemma AfterEstablished(s: Sock, g: Arrival, now: nat)
    requires Low(s.state) == ESTABLISHED
    ensures After(s, HandleEstablished(s, g, now))
  {
    AfterSend(s, ACK, [], 0, 0);
    if Has(g.opt, ACK) && g.seqNo == s.remoteSeq {
      var t := if PayloadSize(g) > 0 then TakeData(s, g, now) else s;
      AfterTakeData(s, g, now);
      var u := if Has(g.opt, FIN) then TakeFin(t, g, now) else t;
      AfterTakeFin(t, g, now);
      AfterTrans(s, t, u);
      AfterClear(u, now);
      AfterTrans(s, u, Fire(u.(state := Low(u.state)), now));
    }
  }

  lemma AfterTick(s: Sock, now: nat)
    requires !InHandshake(s.state)
    ensures After(s, CheckState(s, now))
  {
    AfterCallbacks(s, now);
    var t := DoForceClose(s, now);
    var elapsed := Sub32(now, s.stateTime);
    AfterRetry(s, elapsed, now);
    AfterRetry(t, elapsed, now);
    AfterTrans(s, t, Retry(t, elapsed, now));
  }

  lemma AfterRetry(s: Sock, elapsed: nat, now: nat)
    requires !InHandshake(s.state)
    ensures After(s, Retry(s, elapsed, now))
  {
    AfterCallbacks(s, now);
    if Retries(s.state) {
      var t := s.(attempts := (s.attempts + 1) % 256);
      AfterCallbacks(t, now);
      AfterResend(t, now);
    }
  }

  lemma AfterResend(s: Sock, now: nat)
    requires !InHandshake(s.state) && Retries(s.state)
    ensures After(s, Resend(s, now))
  {
    var back := s.(localSeq := Sub32(s.localSeq, 1));
    var rewound := s.(localSeq := Sub32(s.localSeq, s.lastDataLength));
    AfterCallbacks(rewound, now);
    AfterSend(back, FIN | ACK, [], 0, 0);
    if s.lastDataLength <= |s.stash| {
      AfterSend(rewound, ACK, s.stash[..s.lastDataLength], 0, 0);
    }
  }

  /** A new attempt: one SYN, and localSeq one past it. */
  ghost predicate Starts(s: Sock, r: Sock) {
    && |r.out| == |s.out| + 1 && s.out <= r.out
    && Has(r.out[|s.out|].opt, SYN) && r.out[|s.out|].seqNo == s.localSeq
    && r.localSeq == Add32(s.localSeq, 1)
    && InHandshake(r.state) && r.timeout == s.timeout
    && s.edges <= r.edges && (forall i :: |s.edges| <= i < |r.edges| ==> r.edges[i].1 != ESTABLISHED)
  }

  lemma AfterRefusals(s: Sock, g: Arrival, now: nat)
    ensures After(s, Refuse(s, g, now)) && After(s, HandleReset(s, g, now))
    ensures After(s, DoForceClose(s, now)) && After(s, Reset(s, g.ackNo, 0, now))
  {
    AfterCallbacks(s, now);
  }

  lemma AfterAcknowledged(s: Sock, now: nat)
    requires s.state != SYN_RECEIVED
    ensures After(s, Acknowledged(s, now))
  {
    AfterCallbacks(s, now);
    AfterPut(s, FIN_WAIT_2, now);
    AfterPut(s, TIME_WAIT, now);
  }

  lemma AcceptStarts(s: Sock, g: Arrival, now: nat)
    ensures Starts(s, SetState(SendSegment(Learn(s, g), SYN | ACK, []), SYN_RECEIVED, now).(attempts := 1))
  {
    var l := Learn(s, g);
    assert Has(SYN | ACK, SYN) && !Has(SYN | ACK, RST);
    hide Learn, Has;
    assert l.localSeq == s.localSeq && l.out == s.out && l.edges == s.edges && l.timeout == s.timeout by {
      LearnKeeps(s, g);
    }
  }

  lemma LearnKeeps(s: Sock, g: Arrival)
    ensures var l := Learn(s, g);
      l.localSeq == s.localSeq && l.out == s.out && l.edges == s.edges && l.timeout == s.timeout
  {
    hide Add32;
    var t := s.(remoteSeq := Add32(g.seqNo, 1));
    assert t.localSeq == s.localSeq && t.out == s.out && t.edges == s.edges && t.timeout == s.timeout;
  }

  lemma ArrivalOutside(s0: Sock, g: Arrival, now: nat)
    requires !InHandshake(Low(s0.state))
    ensures After(s0, HandleSegment(s0, g, now)) || Starts(s0, HandleSegment(s0, g, now))
  {
    var s := s0.(remoteWindow := g.window);
    var r := HandleSegment(s0, g, now);
    if !g.valid {
    } else if s.state == LISTEN && g.opt == SYN {
      AcceptStarts(s, g, now);
      assert Starts(s, r);
    } else {
      AfterRefusals(s, g, now);
      AfterSend(s, ACK, [], 0, 0);
      AfterAcknowledged(s, now);
      if Low(s.state) == ESTABLISHED {
        AfterEstablished(s, g, now);
      }
      assert After(s, r);
    }
  }

  lemma StepOutside(s0: Sock, e: Event)
    requires !InHandshake(Low(s0.state))
    ensures After(s0, Step(s0, e)) || Starts(s0, Step(s0, e))
  {
    var s := s0.(script := e.script, window := e.window);
    assert After(s0, s);
    match e.act
    case Open =>
    case Tick =>
      AfterTick(s, e.now);
      AfterTrans(s0, s, Step(s0, e));
    case Arrive(g) =>
      ArrivalOutside(s, g, e.now);
      if After(s, Step(s0, e)) {
        AfterTrans(s0, s, Step(s0, e));
      }
    case Api(Send(data)) =>
      AfterDoSend(s, data, e.now);
      AfterTrans(s0, s, Step(s0, e));
    case Api(Close) =>
      AfterCallbacks(s, e.now);
      AfterTrans(s0, s, Step(s0, e));
    case Api(ForceClose) =>
      AfterCallbacks(s, e.now);
      AfterTrans(s0, s, Step(s0, e));
    case Api(OtherWrite(_)) =>
    case Api(Done(_, _)) =>
  }

  // ------------------------------------------------- from inside a handshake

  predicate Acknowledges(e: Event, value: nat) {
    e.act.Arrive? && e.act.g.valid && Has(e.act.g.opt, ACK) && e.act.g.ackNo == value
  }

  ghost predicate Inside(s: Sock, r: Sock, e: Event) {
    && r.timeout == s.timeout && r.localSeq < MOD32
    && (InHandshake(Low(r.state)) ==> InHandshake(r.state) && r.localSeq == s.localSeq)
    && s.out <= r.out
    && (forall i :: |s.out| <= i < |r.out| && Has(r.out[i].opt, SYN) ==> r.out[i].seqNo == Sub32(s.localSeq, 1))
    && s.edges <= r.edges
    && (forall i :: |s.edges| <= i < |r.edges| && r.edges[i].1 == ESTABLISHED ==> Acknowledges(e, s.localSeq))
  }

  lemma EstablishInside(s: Sock, t: Sock, now: nat)
    requires InHandshake(s.state) && Still(s, t) && s.localSeq < MOD32
    ensures var r := SetState(t, ESTABLISHED, now);
      && r.timeout == s.timeout && r.localSeq < MOD32 && !InHandshake(Low(r.state))
      && s.out <= r.out && s.edges <= r.edges
      && forall i :: |s.out| <= i < |r.out| ==> !Has(r.out[i].opt, SYN)
  {
    var p := Put(t, ESTABLISHED, now);
    AfterFire(p, now);
    AfterFire(Fire(p, now), now);
    AfterTrans(p, Fire(p, now), SetState(t, ESTABLISHED, now));
  }

  lemma StillInside(s: Sock, r: Sock, e: Event)
    requires InHandshake(s.state) && s.localSeq < MOD32 && Still(s, r)
    ensures Inside(s, r, e)
  {
  }

  lemma RefusedStill(s: Sock, g: Arrival, now: nat)
    requires InHandshake(s.state) && NoClose(s.script) && Unacceptable(s, g)
    ensures Still(s, Refused(s, g, now))
  {
    StillSelf(s);
    StillCallbacks(s, now);
    hide Still, Reset, Abandon, Fire, Has;
  }

  lemma AcknowledgedInside(s: Sock, e: Event, now: nat)
    requires InHandshake(s.state) && NoClose(s.script) && s.localSeq < MOD32 && Acknowledges(e, s.localSeq)
    ensures Inside(s, Acknowledged(s, now), e)
  {
    StillSelf(s);
    StillInside(s, s, e);
    EstablishInside(s, s, now);
    hide SetState, Still;
  }

  lemma ArrivalInside(s0: Sock, g: Arrival, e: Event, now: nat)
    requires InHandshake(s0.state) && NoClose(s0.script) && s0.localSeq < MOD32 && e.act == Arrive(g)
    ensures Inside(s0, HandleSegment(s0, g, now), e)
  {
    var s := s0.(remoteWindow := g.window);
    var r := HandleSegment(s0, g, now);
    assert s.state != LISTEN && Low(s.state) != ESTABLISHED;
    assert Inside(s, r, e) ==> Inside(s0, r, e) by {
      RestIgnored(s0, s);
    }
    hide Still, Inside, Unacceptable, Refused, SendSegment, Learn, SetState, DoForceClose, Acknowledged, Has;
    if !g.valid {
      StillSelf(s);
      StillInside(s, s, e);
    } else if Unacceptable(s, g) {
      RefusedStill(s, g, now);
      StillInside(s, Refused(s, g, now), e);
    } else if s.state == SYN_SENT && (g.opt == SYN || (g.opt == ACK | SYN && g.ackNo == s.localSeq)) {
      SynInside(s, g, e, now);
    } else if Has(g.opt, ACK) && g.ackNo == s.localSeq {
      AcknowledgedInside(s, e, now);
    } else {
      StillCallbacks(s, now);
      StillInside(s, DoForceClose(s, now), e);
    }
  }

  lemma RestIgnored(s0: Sock, s: Sock)
    requires s == s0.(remoteWindow := s.remoteWindow)
    ensures s.localSeq == s0.localSeq && s.out == s0.out && s.edges == s0.edges && s.timeout == s0.timeout
  {
  }

  lemma SynInside(s: Sock, g: Arrival, e: Event, now: nat)
    requires s.state == SYN_SENT && NoClose(s.script) && s.localSeq < MOD32 && e.act == Arrive(g) && g.valid
    ensures Inside(s, SendSegment(SetState(Learn(s, g), SYN_RECEIVED, now), ACK, []), e)
    ensures g.opt == ACK | SYN && g.ackNo == s.localSeq ==>
              Inside(s, SetState(SendSegment(Learn(s, g), ACK, []), ESTABLISHED, now), e)
  {
    var t := SendSegment(Learn(s, g), ACK, []);
    assert Still(s, t);
    EstablishInside(s, t, now);
  }

  /** A SYN sent again carries the number of the first. */
  lemma SynAgain(s: Sock, t: Sock, control: bv8, e: Event)
    requires InHandshake(s.state) && s.localSeq < MOD32 && t.(attempts := s.attempts) == s
    requires control == SYN || control == SYN | ACK
    ensures Inside(s, SendSegment(t.(localSeq := Sub32(t.localSeq, 1)), control, []), e)
  {
    assert Has(control, SYN) && !Has(control, RST);
    hide Has;
    assert Add32(Sub32(s.localSeq, 1), 1) == s.localSeq;
  }

  lemma TickInside(s: Sock, e: Event, now: nat)
    requires InHandshake(s.state) && NoClose(s.script) && s.localSeq < MOD32 && s.timeout == 0
    ensures Inside(s, CheckState(s, now), e)
  {
    var t := s.(attempts := (s.attempts + 1) % 256);
    hide DoForceClose, Still, Inside, SendSegment;
    StillSelf(s);
    StillInside(s, s, e);
    StillSelf(t);
    StillCallbacks(t, now);
    SameStill(s, t, DoForceClose(t, now));
    StillInside(s, DoForceClose(t, now), e);
    if s.state == SYN_SENT {
      SynAgain(s, t, SYN, e);
    } else {
      SynAgain(s, t, SYN | ACK, e);
    }
  }

  lemma StillSelf(s: Sock)
    requires NoClose(s.script)
    ensures Still(s, s)
  {
  }

  lemma SameStill(s: Sock, t: Sock, r: Sock)
    requires Still(t, r) && t.(attempts := s.attempts) == s
    ensures Still(s, r)
  {
  }

  lemma StepInside(s0: Sock, e: Event)
    requires InHandshake(s0.state) && KeepsOpen(s0, e) && s0.localSeq < MOD32 && s0.timeout == 0
    ensures Inside(s0, Step(s0, e), e)
  {
    var s := s0.(script := e.script, window := e.window);
    match e.act
    case Open =>
    case Tick => TickInside(s, e, e.now);
    case Arrive(g) => ArrivalInside(s, g, e, e.now);
    case Api(Send(data)) =>
    case Api(ForceClose) => StillCallbacks(s, e.now);
    case Api(OtherWrite(_)) =>
    case Api(Done(_, _)) =>
  }

  // ---------------------------------------------------------- the theorems

  ghost predicate Tidy(t: Attempt) {
    && t.s.timeout == 0 && t.s.localSeq < MOD32
    && (InHandshake(Low(t.s.state)) ==> InHandshake(t.s.state))
    && (InHandshake(t.s.state) ==> OneNumber(t))
  }

  lemma TrackTidy(t: Attempt, e: Event)
    requires Tidy(t) && KeepsOpen(t.s, e)
    ensures Tidy(Track(t, e))
  {
    var r := Track(t, e);
    if InHandshake(t.s.state) {
      StepInside(t.s, e);
      assert Sub32(t.s.localSeq, 1) == t.s.out[t.start].seqNo % MOD32;
    } else {
      StepOutside(t.s, e);
    }
  }

  /** All SYNs of one attempt carry one sequence number, and localSeq is one past it
      throughout SYN_SENT and SYN_RECEIVED. */
  lemma {:induction false} SynsAgree(s: Sock, es: seq<Event>)
    requires Begun(s) && Uninterrupted(s, es)
    ensures InHandshake(Tracked(s, es).s.state) ==> OneNumber(Tracked(s, es))
  {
    RunTidy(s, es);
  }

  lemma {:induction false} RunTidy(s: Sock, es: seq<Event>)
    requires Begun(s) && Uninterrupted(s, es)
    ensures Tidy(Tracked(s, es))
  {
    if es != [] {
      RunTidy(s, es[..|es| - 1]);
      TrackTidy(Tracked(s, es[..|es| - 1]), es[|es| - 1]);
    }
  }

  /** Whatever happens next, the socket becomes established only on a segment that
      acknowledges exactly the SYN of its current attempt. */
  lemma EstablishedOnlyByAck(s: Sock, es: seq<Event>, e: Event, i: nat)
    requires Begun(s) && Uninterrupted(s, es) && KeepsOpen(Tracked(s, es).s, e)
    requires |Tracked(s, es).s.edges| <= i < |Step(Tracked(s, es).s, e).edges|
    requires Step(Tracked(s, es).s, e).edges[i].1 == ESTABLISHED
    ensures OneNumber(Tracked(s, es))
    ensures var t := Tracked(s, es); Acknowledges(e, Add32(t.s.out[t.start].seqNo, 1))
  {
    RunTidy(s, es);
    var t := Tracked(s, es);
    if InHandshake(t.s.state) {
      StepInside(t.s, e);
    } else {
      StepOutside(t.s, e);
      assert false;
    }
  }

}
