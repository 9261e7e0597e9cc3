/** What a socket may send: a send goes out exactly when the peer's window, its segment size and
    the stash have room for it, and over every run no new data segment is longer than the last
    window that arrived or the segment size the peer announced. */
module SocketLimits {
  import opened Words
  import opened SocketModel
  import opened SocketKeeps

  /** Exactly when send() sends. */
  predicate Sendable(s: Sock, data: seq<byte>) {
    && 1 <= |data| && s.state & 0x0F == 4 && s.state & 0xF0 != 0xF0
    && |data| <= s.remoteWindow && |data| <= |s.stash| && (s.remoteMSS == 0 || |data| <= s.remoteMSS)
  }

  /** A send that is refused changes nothing.  One that is not puts the data into the stash and
      on the stream, sends it as one segment, waits for its acknowledgement, and starts the
      count of attempts and the clock. */
  lemma SendIff(s: Sock, data: seq<byte>, now: nat)
    ensures !Sendable(s, data) ==> DoSend(s, data, now) == s
    ensures Sendable(s, data) ==>
      DoSend(s, data, now) ==
        s.(state := s.state | 0xF0, localSeq := (s.localSeq + |data|) % 0x1_0000_0000, lastDataLength := |data|,
           stash := data + s.stash[|data|..], sent := s.sent + data, attempts := 1, stateTime := now, staleWords := 5,
           out := s.out + [Segment(24, s.localSeq, s.remoteSeq, s.window, 5, data)])
  {
    assert ACK | PSH == 24 && !Has(ACK | PSH, RST) && !Has(ACK | PSH, SYN) && !Has(ACK | PSH, FIN);
    hide Has;
  }

  // ------------------------------------------------------------ over a step

  /** g is no new data segment, or within the limits; a size of 0 is no limit. */
  predicate Fits(g: Segment, window: nat, size: nat) {
    g.opt == 24 ==> |g.payload| <= window && (size > 0 ==> |g.payload| <= size)
  }

  /** What x has sent beyond s is within the limits of s, which x keeps. */
  ghost predicate Within(s: Sock, x: Sock) {
    && x.remoteWindow == s.remoteWindow && x.remoteMSS == s.remoteMSS && s.out <= x.out
    && forall i :: |s.out| <= i < |x.out| ==> Fits(x.out[i], s.remoteWindow, s.remoteMSS)
  }

  lemma WithinTrans(s: Sock, x: Sock, y: Sock)
    requires Within(s, x) && Within(x, y)
    ensures Within(s, y)
  {
    hide Fits;
  }

  lemma WithinSame(s: Sock, x: Sock)
    requires x.out == s.out && x.remoteWindow == s.remoteWindow && x.remoteMSS == s.remoteMSS
    ensures Within(s, x)
  {
  }

  /** Everything but new data. */
  lemma WithinEmit(s: Sock, control: bv8, payload: seq<byte>, q: nat, a: nat)
    requires control != 24
    ensures Within(s, SendSegment(s, control, payload, q, a))
  {
    hide Has;
  }

  lemma WithinSend(s: Sock, data: seq<byte>, now: nat)
    ensures Within(s, DoSend(s, data, now))
  {
    SendIff(s, data, now);
    hide DoSend;
  }

  lemma WithinReset(s: Sock, q: nat, a: nat)
    ensures Within(s, EmitReset(s, q, a))
  {
    WithinEmit(s, RST | ACK, [], q, a);
    WithinEmit(s, RST, [], q, a);
    hide SendSegment;
  }

  lemma WithinFin(s: Sock, now: nat)
    ensures Within(s, FinStep(s, now))
  {
    WithinEmit(s, FIN | ACK, [], 0, 0);
    hide SendSegment, Low;
    WithinSame(SendSegment(s, FIN | ACK, []), FinStep(s, now));
    WithinTrans(s, SendSegment(s, FIN | ACK, []), FinStep(s, now));
  }

  lemma StableWithin(s: Sock, now: nat)
    ensures Stable(x => Within(s, x), now)
  {
    hide DoSend, EmitReset, FinStep, LocalClosed, Fits;
    forall x: Sock, data: seq<byte> | Within(s, x) ensures Within(s, DoSend(x, data, now)) {
      WithinSend(x, data, now);
      WithinTrans(s, x, DoSend(x, data, now));
    }
    forall x: Sock, q: nat, a: nat | Within(s, x) ensures Within(s, EmitReset(x, q, a)) {
      WithinReset(x, q, a);
      WithinTrans(s, x, EmitReset(x, q, a));
    }
    forall x: Sock | Within(s, x) && x.script != [] ensures Within(s, FinStep(Pop(x), now)) {
      WithinFin(Pop(x), now);
      WithinTrans(s, Pop(x), FinStep(Pop(x), now));
    }
  }

  lemma CallbacksWithin(s: Sock, now: nat)
    ensures Within(s, Fire(s, now)) && Within(s, DoForceClose(s, now)) && Within(s, Abandon(s, now))
    ensures Within(s, Fire(Abandon(s, now), now)) && Within(s, DoClose(s, now))
    ensures forall q: nat, a: nat :: Within(s, Reset(s, q, a, now))
  {
    var P := x => Within(s, x);
    StableWithin(s, now);
    WithinSame(s, s);
    WithinFin(s, now);
    assert P(s);
    hide Within;
    FireKeeps(P, s, now);
    ForceCloseKeeps(P, s, now);
    AbandonKeeps(P, s, now);
    FireKeeps(P, Abandon(s, now), now);
    FireKeeps(P, FinStep(s, now), now);
    forall q: nat, a: nat ensures P(Reset(s, q, a, now)) {
      ResetKeeps(P, s, q, a, now);
    }
  }

  lemma FireWithin(s: Sock, now: nat)
    ensures Within(s, Fire(s, now))
  {
    CallbacksWithin(s, now);
  }

  lemma SetStateWithin(s: Sock, state: bv8, now: nat)
    ensures Within(s, SetState(s, state, now))
  {
    var p := Put(s, state, now);
    WithinSame(s, p);
    FireWithin(p, now);
    FireWithin(Fire(p, now), now);
    hide Within, Fire, Put;
    WithinTrans(s, p, Fire(p, now));
    WithinTrans(s, Fire(p, now), Fire(Fire(p, now), now));
  }

  lemma AckWithin(s: Sock)
    ensures Within(s, SendSegment(s, ACK, []))
  {
    WithinEmit(s, ACK, [], 0, 0);
  }

  lemma TakeDataWithin(s: Sock, g: Arrival, now: nat)
    ensures Within(s, TakeData(s, g, now))
  {
    var t := if Has(g.opt, FIN) then s.(remoteSeq := Add32(s.remoteSeq, 1)) else s;
    WithinSame(s, t);
    FireWithin(t, now);
    var o := if g.recv != [] then Offer(t, g, now) else t;
    hide Has, Fire, SendSegment;
    WithinSame(Fire(t, now), Offer(t, g, now));
    AckWithin(o);
    WithinSame(t, t);
    hide Within, Offer;
    WithinTrans(t, Fire(t, now), Offer(t, g, now));
    WithinTrans(s, t, o);
    WithinTrans(s, o, TakeData(s, g, now));
  }

  lemma TakeFinWithin(s: Sock, g: Arrival, now: nat)
    ensures Within(s, TakeFin(s, g, now))
  {
    hide Has, Fire, SetState, SendSegment, Low, Within;
    var n := s.(remoteSeq := Add32(s.remoteSeq, 1));
    var t := if PayloadSize(g) == 0 then SendSegment(n, ACK, []) else s;
    WithinSame(s, n);
    WithinSame(s, s);
    AckWithin(n);
    WithinTrans(s, n, SendSegment(n, ACK, []));
    SetStateWithin(t, TIME_WAIT, now);
    SetStateWithin(t, CLOSING, now);
    SetStateWithin(t, CLOSE_WAIT, now);
    WithinSame(t, t);
    var u :=
      if t.state == FIN_WAIT_1 then
        SetState(t, if Has(g.opt, ACK) && g.ackNo == t.localSeq then TIME_WAIT else CLOSING, now)
      else if t.state == FIN_WAIT_2 then SetState(t, TIME_WAIT, now)
      else if Low(t.state) == ESTABLISHED then SetState(t, CLOSE_WAIT, now)
      else t;
    FireWithin(u, now);
    WithinTrans(s, t, u);
    WithinTrans(s, u, Fire(u, now));
  }

  lemma EstablishedWithin(s: Sock, g: Arrival, now: nat)
    ensures Within(s, HandleEstablished(s, g, now))
  {
    hide Has, Low, Awaiting, TakeData, TakeFin, SendSegment, Fire, Within;
    AckWithin(s);
    WithinSame(s, s);
    var t := if PayloadSize(g) > 0 then TakeData(s, g, now) else s;
    TakeDataWithin(s, g, now);
    var u := if Has(g.opt, FIN) then TakeFin(t, g, now) else t;
    TakeFinWithin(t, g, now);
    WithinSame(t, t);
    WithinTrans(s, t, u);
    var c := u.(state := Low(u.state));
    WithinSame(u, c);
    FireWithin(c, now);
    WithinTrans(s, u, c);
    WithinTrans(s, c, Fire(c, now));
  }

  lemma RefusedWithin(s: Sock, g: Arrival, now: nat)
    ensures Within(s, Refused(s, g, now))
  {
    hide Has, Reset, Abandon, Fire, SendSegment, Unsynchronized, Synchronized, Within;
    CallbacksWithin(s, now);
    AckWithin(s);
    WithinSame(s, s);
  }

  lemma AcknowledgedWithin(s: Sock, now: nat)
    ensures Within(s, Acknowledged(s, now))
  {
    hide SetState, Abandon, Within;
    SetStateWithin(s, ESTABLISHED, now);
    SetStateWithin(s, FIN_WAIT_2, now);
    SetStateWithin(s, TIME_WAIT, now);
    CallbacksWithin(s, now);
    WithinSame(s, s);
  }

  /** The handshake's segments after what a SYN has taught. */
  lemma OpeningWithin(l: Sock, now: nat)
    ensures Within(l, SetState(SendSegment(l, SYN | ACK, []), SYN_RECEIVED, now).(attempts := 1))
    ensures Within(l, SendSegment(SetState(l, SYN_RECEIVED, now), ACK, []))
    ensures Within(l, SetState(SendSegment(l, ACK, []), ESTABLISHED, now))
  {
    WithinEmit(l, SYN | ACK, [], 0, 0);
    hide SetState, SendSegment, Within;
    var a, b, c := SendSegment(l, SYN | ACK, []), SetState(l, SYN_RECEIVED, now), SendSegment(l, ACK, []);
    AckWithin(l);
    SetStateWithin(l, SYN_RECEIVED, now);
    SetStateWithin(a, SYN_RECEIVED, now);
    SetStateWithin(c, ESTABLISHED, now);
    AckWithin(b);
    WithinTrans(l, a, SetState(a, SYN_RECEIVED, now));
    WithinSame(SetState(a, SYN_RECEIVED, now), SetState(a, SYN_RECEIVED, now).(attempts := 1));
    WithinTrans(l, SetState(a, SYN_RECEIVED, now), SetState(a, SYN_RECEIVED, now).(attempts := 1));
    WithinTrans(l, b, SendSegment(b, ACK, []));
    WithinTrans(l, c, SetState(c, ESTABLISHED, now));
  }

  // ------------------------------------------------------- what a SYN teaches

  /** The segment opens the connection, and brings a maximum segment size as its only option. */
  predicate Opens(s: Sock, g: Arrival) {
    g.valid && ((s.state == 1 && g.opt == 2) || (s.state == 2 && g.opt == 2) ||
                (s.state == 2 && g.opt == 18 && g.ackNo == s.localSeq))
  }

  function Announced(g: Arrival): Option<nat> { if g.words == 6 then g.mss else None }

  /** The limits in force once the segment has been looked at. */
  function Limited(s: Sock, g: Arrival): Sock {
    var u := s.(remoteWindow := g.window);
    if Opens(s, g) && Announced(g).Some? then u.(remoteMSS := Announced(g).value) else u
  }

  lemma OpensHandled(s: Sock, g: Arrival, now: nat)
    requires Opens(s, g)
    ensures var l := Limited(s, g).(remoteSeq := Add32(g.seqNo, 1));
      HandleSegment(s, g, now) ==
        if s.state == 1 then SetState(SendSegment(l, SYN | ACK, []), SYN_RECEIVED, now).(attempts := 1)
        else if g.opt == 2 then SendSegment(SetState(l, SYN_RECEIVED, now), ACK, [])
        else SetState(SendSegment(l, ACK, []), ESTABLISHED, now)
  {
    var u := s.(remoteWindow := g.window);
    OpeningAcceptable(u, g);
    assert Learn(u, g) == Limited(s, g).(remoteSeq := Add32(g.seqNo, 1));
    assert ACK | SYN == 18 && SYN == 2 && LISTEN == 1 && SYN_SENT == 2;
    hide Unacceptable, SetState, SendSegment, Learn, Limited, Announced;
  }

  lemma OpeningAcceptable(s: Sock, g: Arrival)
    requires Opens(s, g)
    ensures !Unacceptable(s, g)
  {
    assert Has(2, SYN) && !Has(2, RST) && !Has(2, ACK) && !Has(18, RST) && Has(18, SYN);
    assert !Synchronized(LISTEN) && !Synchronized(SYN_SENT);
    hide Has, Synchronized, Unsynchronized;
  }

  lemma ArrivalWithin(s: Sock, g: Arrival, now: nat)
    ensures Within(Limited(s, g), HandleSegment(s, g, now))
  {
    if Opens(s, g) {
      OpensHandled(s, g, now);
      var l := Limited(s, g).(remoteSeq := Add32(g.seqNo, 1));
      hide HandleSegment, Limited, SetState, SendSegment;
      OpeningWithin(l, now);
      WithinSame(Limited(s, g), l);
      WithinTrans(Limited(s, g), l, HandleSegment(s, g, now));
    } else {
      ClosedWithin(s, g, now);
    }
  }

  lemma ClosedWithin(s: Sock, g: Arrival, now: nat)
    requires !Opens(s, g)
    ensures Within(s.(remoteWindow := g.window), HandleSegment(s, g, now))
  {
    var u := s.(remoteWindow := g.window);
    assert ACK | SYN == 18;
    hide Within, Unacceptable, Refused, HandleEstablished, Acknowledged, DoForceClose, Low, Has;
    WithinSame(u, u);
    RefusedWithin(u, g, now);
    EstablishedWithin(u, g, now);
    AcknowledgedWithin(u, now);
    CallbacksWithin(u, now);
  }

  lemma RetryWithin(s: Sock, elapsed: nat, now: nat)
    ensures Within(s, Retry(s, elapsed, now))
  {
    var t := s.(attempts := (s.attempts + 1) % 256);
    hide Within, DoForceClose, Abandon, Resend, Retries;
    WithinSame(s, s);
    WithinSame(s, t);
    CallbacksWithin(s, now);
    CallbacksWithin(t, now);
    WithinTrans(s, t, DoForceClose(t, now));
    if Retries(s.state) {
      ResendWithin(t, now);
      WithinTrans(s, t, Resend(t, now));
    }
  }

  lemma RepeatWithin(s: Sock, control: bv8)
    requires control != 24
    ensures Within(s, SendSegment(s.(localSeq := Sub32(s.localSeq, 1)), control, []))
  {
    var back := s.(localSeq := Sub32(s.localSeq, 1));
    WithinSame(s, back);
    WithinEmit(back, control, [], 0, 0);
    hide Within, SendSegment;
    WithinTrans(s, back, SendSegment(back, control, []));
  }

  lemma ResendWithin(s: Sock, now: nat)
    ensures Within(s, Resend(s, now))
  {
    assert SYN != 24 && SYN | ACK != 24 && FIN | ACK != 24 && ACK != 24;
    hide Within, DoForceClose, SendSegment;
    if s.state == ESTABLISHED | AWAITING_ACK {
      var r := s.(localSeq := Sub32(s.localSeq, s.lastDataLength));
      WithinSame(s, r);
      if s.lastDataLength <= |s.stash| {
        WithinEmit(r, ACK, s.stash[..s.lastDataLength], 0, 0);
        WithinTrans(s, r, ResendData(s));
      } else {
        CallbacksWithin(r, now);
        WithinTrans(s, r, DoForceClose(r, now));
      }
    } else {
      RepeatWithin(s, if s.state == SYN_SENT then SYN else if s.state == SYN_RECEIVED then SYN | ACK else FIN | ACK);
    }
  }

  lemma TickWithin(s: Sock, now: nat)
    ensures Within(s, CheckState(s, now))
  {
    hide Within, DoClose, DoForceClose, Retry, LocalClosed;
    WithinSame(s, s);
    CallbacksWithin(s, now);
    var t, elapsed := DoForceClose(s, now), Sub32(now, s.stateTime);
    RetryWithin(s, elapsed, now);
    RetryWithin(t, elapsed, now);
    WithinTrans(s, t, Retry(t, elapsed, now));
  }

  // -------------------------------------------------------------- over a run

  /** The limits in force during an event. */
  function During(s: Sock, e: Event): Sock { if e.act.Arrive? then Limited(s, e.act.g) else s }

  lemma StepWithin(s: Sock, e: Event)
    ensures Within(During(s, e), Step(s, e))
  {
    var t := s.(script := e.script, window := e.window);
    WithinSame(During(s, e), During(t, e));
    EntryWithin(t, e);
    hide Within, During, Step;
    WithinTrans(During(s, e), During(t, e), Step(t, e));
    SameStep(s, t, e);
  }

  lemma SameStep(s: Sock, t: Sock, e: Event)
    requires t == s.(script := e.script, window := e.window)
    ensures Step(t, e) == Step(s, e)
  {
    assert t.(script := e.script, window := e.window) == t;
    hide HandleSegment, CheckState, Connect, DoSend, DoClose, DoForceClose;
  }

  lemma EntryWithin(t: Sock, e: Event)
    requires t.script == e.script && t.window == e.window
    ensures Within(During(t, e), Step(t, e))
  {
    assert t.(script := e.script, window := e.window) == t;
    hide Within, HandleSegment, CheckState, Connect, DoSend, DoClose, DoForceClose, Limited, Overwritten;
    match e.act
    case Open => OpenWithin(t, e.now);
    case Tick => TickWithin(t, e.now);
    case Arrive(g) => ArrivalWithin(t, g, e.now);
    case Api(Send(data)) => WithinSend(t, data, e.now);
    case Api(Close) => CallbacksWithin(t, e.now);
    case Api(ForceClose) => CallbacksWithin(t, e.now);
    case Api(OtherWrite(words)) => OverwrittenWithin(t, words);
    case Api(Done(_, _)) => WithinSame(t, t);
  }

  lemma OverwrittenWithin(s: Sock, words: nibble)
    ensures Within(s, Overwritten(s, words))
  {
  }

  lemma OpenWithin(s: Sock, now: nat)
    ensures Within(s, Connect(s, now))
  {
    WithinEmit(s, SYN, [], 0, 0);
    var a := SendSegment(s, SYN, []);
    hide Within, SendSegment, SetState;
    WithinSame(s, s);
    WithinSame(a, a.(attempts := 1));
    SetStateWithin(a.(attempts := 1), SYN_SENT, now);
    WithinTrans(s, a, a.(attempts := 1));
    if s.state == CLOSED {
      WithinTrans(s, a.(attempts := 1), Connect(s, now));
    }
  }

  /** The window field of the last segment that has arrived. */
  function LastWindow(s: Sock, es: seq<Event>): nat {
    if es == [] then s.remoteWindow
    else
      var n := |es| - 1;
      if es[n].act.Arrive? then es[n].act.g.window else LastWindow(s, es[..n])
  }

  /** The segment size announced by the SYN that opened the last connection, if it had one. */
  function LastAnnounced(s: Sock, es: seq<Event>): Option<nat> {
    if es == [] then None
    else
      var n := |es| - 1;
      if es[n].act.Arrive? && Opens(Run(s, es[..n]), es[n].act.g) then Announced(es[n].act.g)
      else LastAnnounced(s, es[..n])
  }

  lemma {:induction false} LimitsKnown(s: Sock, es: seq<Event>)
    ensures Run(s, es).remoteWindow == LastWindow(s, es)
    ensures LastAnnounced(s, es).Some? ==> Run(s, es).remoteMSS == LastAnnounced(s, es).value
  {
    if es != [] {
      var n := |es| - 1;
      LimitsKnown(s, es[..n]);
      StepWithin(Run(s, es[..n]), es[n]);
    }
  }

  /** In every run, a new data segment of any step is no longer than the window of the last
      segment that had arrived by then, nor than the segment size that the SYN of its connection
      announced, 0 meaning none. */
  lemma DataWithinLimits(s: Sock, es: seq<Event>, k: nat, i: nat)
    requires k < |es| && |Run(s, es[..k]).out| <= i < |Run(s, es[..k + 1]).out|
    requires Run(s, es[..k + 1]).out[i].opt == 24
    ensures var g := Run(s, es[..k + 1]).out[i];
      && |g.payload| <= LastWindow(s, es[..k + 1])
      && (var m := LastAnnounced(s, es[..k + 1]); m.Some? && m.value > 0 ==> |g.payload| <= m.value)
  {
    assert es[..k + 1][..k] == es[..k];
    StepWithin(Run(s, es[..k]), es[k]);
    LimitsKnown(s, es[..k + 1]);
    LimitsKnown(s, es[..k]);
  }
}
