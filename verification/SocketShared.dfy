/** Any number of sockets that share one send buffer and one stash, cut into slices of equal
    size.  Each socket sees its own slice as its stash, and byte 12 of the send buffer as the
    last segment of any of them left it. */
module SocketShared {
  import opened Words
  import opened SocketModel
  import opened SocketKeeps

  // ---------------------------------------------- one socket, in any history

  /** A segment with these bytes at this sequence number has gone out before. */
  ghost predicate WentOut(s: Sock, seqNo: nat, payload: seq<byte>) {
    exists k :: 0 <= k < |s.out| && s.out[k].seqNo == seqNo && s.out[k].payload == payload
  }

  /** While a socket awaits an ACK, its stash starts with the bytes it sent last, which went
      out under the sequence number a retransmission will rewind to. */
  ghost predicate InFlight(s: Sock) {
    s.state == ESTABLISHED | AWAITING_ACK ==>
      && 1 <= s.lastDataLength <= |s.stash| && s.lastDataLength <= |s.sent|
      && s.stash[..s.lastDataLength] == s.sent[|s.sent| - s.lastDataLength..]
      && WentOut(s, Sub32(s.localSeq, s.lastDataLength), s.stash[..s.lastDataLength])
  }

  ghost predicate Holds(s: Sock, size: nat) {
    |s.stash| == size && s.localSeq < MOD32 && InFlight(s)
  }

  /** The other fields do not matter. */
  lemma SameHolds(s: Sock, t: Sock, size: nat)
    requires Holds(s, size) && t.state == s.state && t.localSeq == s.localSeq && t.lastDataLength == s.lastDataLength
    requires t.stash == s.stash && t.sent == s.sent && t.out == s.out
    ensures Holds(t, size)
  {
  }

  lemma EmitHolds(s: Sock, g: Segment, size: nat)
    requires Holds(s, size)
    ensures Holds(Emit(s, g), size)
  {
    if s.state == ESTABLISHED | AWAITING_ACK {
      var r := Emit(s, g);
      var k :| 0 <= k < |s.out| && s.out[k].seqNo == Sub32(s.localSeq, s.lastDataLength)
        && s.out[k].payload == s.stash[..s.lastDataLength];
      assert r.out[k] == s.out[k];
    }
  }

  lemma AckHolds(s: Sock, size: nat)
    requires Holds(s, size)
    ensures Holds(SendSegment(s, ACK, []), size)
  {
    EmitHolds(s, Segment(ACK, s.localSeq, s.remoteSeq, s.window, 5, []), size);
  }

  lemma LaunchHolds(s: Sock, data: seq<byte>, now: nat, size: nat)
    requires Holds(s, size)
    ensures Holds(DoSend(s, data, now), size)
  {
    var r := DoSend(s, data, now);
    if r != s {
      SendEmits(s, data, now);
      hide DoSend;
      assert r.out[|s.out|].payload == data == r.stash[..|data|];
      assert r.sent[|r.sent| - |data|..] == data;
      assert Sub32(r.localSeq, |data|) == s.localSeq;
    }
  }

  lemma SendEmits(s: Sock, data: seq<byte>, now: nat)
    requires DoSend(s, data, now) != s
    ensures var r := DoSend(s, data, now);
      && r.state == s.state | AWAITING_ACK && 1 <= |data| <= |s.stash| && r.stash == data + s.stash[|data|..]
      && r.out == s.out + [Segment(ACK | PSH, s.localSeq, s.remoteSeq, s.window, 5, data)]
      && r.sent == s.sent + data && r.lastDataLength == |data| && r.localSeq == Add32(s.localSeq, |data|)
  {
    hide ReadyToSend;
  }

  lemma ResendHolds(s: Sock, size: nat)
    requires Holds(s, size) && s.state == ESTABLISHED | AWAITING_ACK
    ensures Holds(ResendData(s), size)
    ensures var n := s.lastDataLength;
      ResendData(s) == Emit(s, Segment(ACK, Sub32(s.localSeq, n), s.remoteSeq, s.window, 5, s.stash[..n]))
  {
    var n := s.lastDataLength;
    assert Add32(Sub32(s.localSeq, n), n) == s.localSeq;
    EmitHolds(s, Segment(ACK, Sub32(s.localSeq, n), s.remoteSeq, s.window, 5, s.stash[..n]), size);
  }

  lemma ScriptHolds(s: Sock, now: nat, size: nat)
    requires Holds(s, size)
    ensures Holds(Exhausted(s), size) && Holds(Put(s, Idle(s), now), size)
    ensures s.script != [] ==> Holds(Pop(s), size) && (s.script[0].Done? ==> Holds(Return(s), size))
  {
  }

  lemma EmitResetHolds(s: Sock, q: nat, a: nat, size: nat)
    requires Holds(s, size)
    ensures Holds(EmitReset(s, q, a), size)
  {
    EmitHolds(s, Segment(if a == s.remoteSeq then RST | ACK else RST, q, a, s.window, 5, []), size);
  }

  lemma StableHolds(size: nat, now: nat)
    ensures Stable(s => Holds(s, size), now)
  {
    hide Holds, DoSend, EmitReset, FinStep, Put, Pop, Return, Exhausted, LocalClosed;
    forall s: Sock | Holds(s, size)
      ensures Holds(Exhausted(s), size) && Holds(Put(s, Idle(s), now), size)
      ensures s.script != [] ==> Holds(Pop(s), size) && (s.script[0].Done? ==> Holds(Return(s), size))
    {
      ScriptHolds(s, now, size);
    }
    forall s: Sock, words: nibble | Holds(s, size) ensures Holds(Overwritten(s, words), size) {
      SameHolds(s, Overwritten(s, words), size);
    }
    forall s: Sock, data: seq<byte> | Holds(s, size) ensures Holds(DoSend(s, data, now), size) {
      LaunchHolds(s, data, now, size);
    }
    forall s: Sock, q: nat, a: nat | Holds(s, size) ensures Holds(EmitReset(s, q, a), size) {
      EmitResetHolds(s, q, a, size);
    }
    forall s: Sock | Holds(s, size) && s.script != [] ensures Holds(FinStep(Pop(s), now), size) {
      ScriptHolds(s, now, size);
      FinHolds(Pop(s), now, size);
    }
  }

  lemma FinHolds(s: Sock, now: nat, size: nat)
    requires Holds(s, size)
    ensures Holds(FinStep(s, now), size)
  {
    assert Low(ESTABLISHED | AWAITING_ACK) == ESTABLISHED;
  }

  /** Everything a callback can do. */
  lemma CallbacksHold(s: Sock, now: nat, size: nat)
    requires Holds(s, size)
    ensures Holds(Fire(s, now), size) && Holds(DoForceClose(s, now), size) && Holds(Abandon(s, now), size)
    ensures forall q: nat, a: nat :: Holds(Reset(s, q, a, now), size)
  {
    var P := x => Holds(x, size);
    StableHolds(size, now);
    assert P(s);
    FireKeeps(P, s, now);
    ForceCloseKeeps(P, s, now);
    AbandonKeeps(P, s, now);
    forall q: nat, a: nat ensures P(Reset(s, q, a, now)) {
      ResetKeeps(P, s, q, a, now);
    }
  }

  lemma CloseHolds(s: Sock, now: nat, size: nat)
    requires Holds(s, size)
    ensures Holds(DoClose(s, now), size)
  {
    FinHolds(s, now, size);
    CallbacksHold(FinStep(s, now), now, size);
  }

  lemma SetStateHolds(s: Sock, state: bv8, now: nat, size: nat)
    requires Holds(s, size) && state != ESTABLISHED | AWAITING_ACK
    ensures Holds(SetState(s, state, now), size)
  {
    var p := Put(s, state, now);
    CallbacksHold(p, now, size);
    CallbacksHold(Fire(p, now), now, size);
  }

  lemma RetryHolds(s: Sock, elapsed: nat, now: nat, size: nat)
    requires Holds(s, size)
    ensures Holds(Retry(s, elapsed, now), size)
  {
    hide WentOut;
    var t := s.(attempts := (s.attempts + 1) % 256);
    SameHolds(s, t, size);
    CallbacksHold(t, now, size);
    CallbacksHold(s, now, size);
    if s.state == ESTABLISHED | AWAITING_ACK {
      ResendHolds(t, size);
    }
  }

  lemma TickHolds(s: Sock, now: nat, size: nat)
    requires Holds(s, size)
    ensures Holds(CheckState(s, now), size)
  {
    hide Holds;
    var elapsed := Sub32(now, s.stateTime);
    CloseHolds(s, now, size);
    CallbacksHold(s, now, size);
    RetryHolds(s, elapsed, now, size);
    RetryHolds(DoForceClose(s, now), elapsed, now, size);
  }

  lemma OfferHolds(s: Sock, g: Arrival, now: nat, size: nat)
    requires Holds(s, size)
    ensures Holds(TakeData(s, g, now), size)
  {
    hide Holds, Has, Fire, SendSegment;
    var t := if Has(g.opt, FIN) then s.(remoteSeq := Add32(s.remoteSeq, 1)) else s;
    SameHolds(s, t, size);
    CallbacksHold(t, now, size);
    SameHolds(Fire(t, now), Offer(t, g, now), size);
    AckHolds(if g.recv != [] then Offer(t, g, now) else t, size);
  }

  lemma TakeFinHolds(s: Sock, g: Arrival, now: nat, size: nat)
    requires Holds(s, size)
    ensures Holds(TakeFin(s, g, now), size)
  {
    hide Holds, Has, Fire, SendSegment, SetState, Low;
    var r := s.(remoteSeq := Add32(s.remoteSeq, 1));
    SameHolds(s, r, size);
    AckHolds(r, size);
    var t := if PayloadSize(g) == 0 then SendSegment(r, ACK, []) else s;
    SetStateHolds(t, TIME_WAIT, now, size);
    SetStateHolds(t, CLOSING, now, size);
    SetStateHolds(t, CLOSE_WAIT, now, size);
    var u :=
      if t.state == FIN_WAIT_1 then
        SetState(t, if Has(g.opt, ACK) && g.ackNo == t.localSeq then TIME_WAIT else CLOSING, now)
      else if t.state == FIN_WAIT_2 then SetState(t, TIME_WAIT, now)
      else if Low(t.state) == ESTABLISHED then SetState(t, CLOSE_WAIT, now)
      else t;
    CallbacksHold(u, now, size);
  }

  lemma ClearHolds(s: Sock, now: nat, size: nat)
    requires Holds(s, size)
    ensures Holds(Fire(s.(state := Low(s.state)), now), size)
  {
    assert Low(s.state) != ESTABLISHED | AWAITING_ACK;
    CallbacksHold(s.(state := Low(s.state)), now, size);
  }

  lemma EstablishedHolds(s: Sock, g: Arrival, now: nat, size: nat)
    requires Holds(s, size)
    ensures Holds(HandleEstablished(s, g, now), size)
  {
    hide Holds, TakeData, TakeFin;
    AckHolds(s, size);
    OfferHolds(s, g, now, size);
    var t := if PayloadSize(g) > 0 then TakeData(s, g, now) else s;
    TakeFinHolds(t, g, now, size);
    var u := if Has(g.opt, FIN) then TakeFin(t, g, now) else t;
    ClearHolds(u, now, size);
  }

  lemma LearnHolds(s: Sock, g: Arrival, now: nat, size: nat)
    requires Holds(s, size) && Unsynchronized(s.state)
    ensures Holds(SetState(SendSegment(Learn(s, g), SYN | ACK, []), SYN_RECEIVED, now).(attempts := 1), size)
    ensures Holds(SendSegment(SetState(Learn(s, g), SYN_RECEIVED, now), ACK, []), size)
    ensures Holds(SetState(SendSegment(Learn(s, g), ACK, []), ESTABLISHED, now), size)
  {
    var l := Learn(s, g);
    SetStateHolds(SendSegment(l, SYN | ACK, []), SYN_RECEIVED, now, size);
    SetStateHolds(l, SYN_RECEIVED, now, size);
    AckHolds(SetState(l, SYN_RECEIVED, now), size);
    SetStateHolds(SendSegment(l, ACK, []), ESTABLISHED, now, size);
  }

  lemma AcknowledgedHolds(s: Sock, now: nat, size: nat)
    requires Holds(s, size)
    ensures Holds(Acknowledged(s, now), size)
  {
    SetStateHolds(s, ESTABLISHED, now, size);
    SetStateHolds(s, FIN_WAIT_2, now, size);
    SetStateHolds(s, TIME_WAIT, now, size);
    CallbacksHold(s, now, size);
  }

  lemma ResetsHold(s: Sock, g: Arrival, now: nat, size: nat)
    requires Holds(s, size)
    ensures Holds(Refused(s, g, now), size) && Holds(DoForceClose(s, now), size)
  {
    AckHolds(s, size);
    hide Holds, Reset, Abandon, DoForceClose, SendSegment, Fire, Has, Unsynchronized, Synchronized;
    CallbacksHold(s, now, size);
    CallbacksHold(Abandon(s, now), now, size);
  }

  lemma ArrivalHolds(s0: Sock, g: Arrival, now: nat, size: nat)
    requires Holds(s0, size)
    ensures Holds(HandleSegment(s0, g, now), size)
  {
    var s := s0.(remoteWindow := g.window);
    assert Holds(s, size);
    hide Holds, HandleEstablished, Unacceptable, Refused, Acknowledged, Learn, SendSegment, Has, Low;
    AckHolds(s, size);
    ResetsHold(s, g, now, size);
    EstablishedHolds(s, g, now, size);
    AcknowledgedHolds(s, now, size);
    if Unsynchronized(s.state) {
      LearnHolds(s, g, now, size);
    }
  }

  lemma StepHolds(s0: Sock, e: Event, size: nat)
    requires Holds(s0, size)
    ensures Holds(Step(s0, e), size)
  {
    var s := s0.(script := e.script, window := e.window);
    match e.act
    case Open =>
      if s.state == CLOSED {
        SetStateHolds(SendSegment(s, SYN, []).(attempts := 1), SYN_SENT, e.now, size);
      }
    case Tick => TickHolds(s, e.now, size);
    case Arrive(g) => ArrivalHolds(s, g, e.now, size);
    case Api(Send(data)) => LaunchHolds(s, data, e.now, size);
    case Api(Close) => CloseHolds(s, e.now, size);
    case Api(ForceClose) => CallbacksHold(s, e.now, size);
    case Api(OtherWrite(_)) =>
    case Api(Done(_, _)) =>
  }

  // ------------------------------------------------------- the shared memory

  /** `words` is the upper half of byte 12 of the send buffer. */
  datatype Hub = Hub(mem: seq<byte>, size: nat, words: nibble, socks: seq<Sock>)

  /** Where slice i starts. */
  function Base(i: nat, size: nat): nat { i * size }

  lemma SlicesApart(i: nat, j: nat, n: nat, size: nat, len: nat)
    requires i < n && j < n && n * size <= len
    ensures Base(i, size) + size <= len
    ensures i < j ==> Base(i, size) + size <= Base(j, size)
    ensures j < i ==> Base(j, size) + size <= Base(i, size)
  {
    Above(i, n, size);
    if i < j {
      Above(i, j, size);
    }
    if j < i {
      Above(j, i, size);
    }
  }

  lemma Above(i: nat, n: nat, size: nat)
    requires i < n
    ensures Base(i, size) + size <= n * size
  {
    assert n * size - Base(i, size) - size == (n - i - 1) * size;
  }

  predicate Fits(h: Hub) { |h.socks| * h.size <= |h.mem| }

  /** Socket i with what it finds in the shared buffers. */
  function Load(h: Hub, i: nat): Sock
    requires Fits(h) && i < |h.socks|
  {
    SlicesApart(i, i, |h.socks|, h.size, |h.mem|);
    h.socks[i].(stash := h.mem[Base(i, h.size)..Base(i, h.size) + h.size], staleWords := h.words)
  }

  ghost predicate Shared(h: Hub) {
    Fits(h) && forall i :: 0 <= i < |h.socks| ==> Holds(Load(h, i), h.size)
  }

  /** Socket i makes a step; its new stash goes back to its slice. */
  function Stored(h: Hub, i: nat, s: Sock): Hub
    requires Fits(h) && i < |h.socks| && |s.stash| == h.size
  {
    SlicesApart(i, i, |h.socks|, h.size, |h.mem|);
    h.(mem := h.mem[..Base(i, h.size)] + s.stash + h.mem[Base(i, h.size) + h.size..],
       words := s.staleWords,
       socks := h.socks[i := s])
  }

  lemma StoredLoads(h: Hub, i: nat, s: Sock, j: nat)
    requires Fits(h) && i < |h.socks| && |s.stash| == h.size && j < |h.socks|
    ensures Fits(Stored(h, i, s))
    ensures Load(Stored(h, i, s), j) == if j == i then s else Load(h, j).(staleWords := s.staleWords)
  {
    SlicesApart(i, i, |h.socks|, h.size, |h.mem|);
    SlicesApart(j, j, |h.socks|, h.size, |h.mem|);
    SlicesApart(i, j, |h.socks|, h.size, |h.mem|);
    hide Base;
    Splice(h.mem, s.stash, Base(i, h.size), Base(j, h.size));
  }

  /** A slice after another, or the same, has been replaced. */
  lemma Splice(m: seq<byte>, x: seq<byte>, lo: nat, at: nat)
    requires lo + |x| <= |m| && at + |x| <= |m|
    requires at + |x| <= lo || lo + |x| <= at || at == lo
    ensures var n := m[..lo] + x + m[lo + |x|..];
      |n| == |m| && n[at..at + |x|] == if at == lo then x else m[at..at + |x|]
  {
    var n := m[..lo] + x + m[lo + |x|..];
    if at == lo {
      assert n[at..at + |x|] == x;
    } else {
      assert n[at..at + |x|] == m[at..at + |x|];
    }
  }

  datatype Turn = Turn(i: nat, e: Event)

  ghost function HubStep(h: Hub, t: Turn): (r: Hub)
    requires Shared(h) && t.i < |h.socks|
    ensures Shared(r) && |r.socks| == |h.socks| && r.size == h.size && |r.mem| == |h.mem|
  {
    StepHolds(Load(h, t.i), t.e, h.size);
    var s := Step(Load(h, t.i), t.e);
    StoredShared(h, t.i, s);
    Stored(h, t.i, s)
  }

  lemma StoredShared(h: Hub, i: nat, s: Sock)
    requires Shared(h) && i < |h.socks| && Holds(s, h.size)
    ensures Shared(Stored(h, i, s))
    ensures var r := Stored(h, i, s); |r.socks| == |h.socks| && r.size == h.size && |r.mem| == |h.mem|
  {
    SlicesApart(i, i, |h.socks|, h.size, |h.mem|);
    hide Holds;
    forall j | 0 <= j < |h.socks| ensures Holds(Load(Stored(h, i, s), j), h.size) {
      StoredLoads(h, i, s, j);
      if j != i {
        WordsHold(Load(h, j), s.staleWords, h.size);
      }
    }
  }

  lemma WordsHold(s: Sock, words: nibble, size: nat)
    requires Holds(s, size)
    ensures Holds(s.(staleWords := words), size)
  {
  }

  predicate Turns(h: Hub, ts: seq<Turn>) { forall k :: 0 <= k < |ts| ==> ts[k].i < |h.socks| }

  ghost function After(h: Hub, ts: seq<Turn>): (r: Hub)
    requires Shared(h) && Turns(h, ts)
    ensures Shared(r) && |r.socks| == |h.socks| && r.size == h.size && |r.mem| == |h.mem|
  {
    if ts == [] then h else HubStep(After(h, ts[..|ts| - 1]), ts[|ts| - 1])
  }

  lemma AfterMore(h: Hub, ts: seq<Turn>, t: Turn)
    requires Shared(h) && Turns(h, ts) && t.i < |h.socks|
    ensures After(h, []) == h && Turns(h, ts + [t]) && After(h, ts + [t]) == HubStep(After(h, ts), t)
  {
    hide HubStep, Shared;
    assert (ts + [t])[..|ts|] == ts;
  }

  // ----------------------------------------------------------- the theorems

  /** Sockets as they are registered: nothing in flight. */
  predicate Registered(h: Hub) {
    Fits(h) && forall i :: 0 <= i < |h.socks| ==> Resting(h.socks[i])
  }

  predicate Resting(s: Sock) { (s.state == LISTEN || s.state == CLOSED) && s.localSeq < MOD32 }

  lemma RestingHolds(s: Sock)
    requires Resting(s)
    ensures Holds(s, |s.stash|)
  {
  }

  /** A step of one socket changes nothing another finds in the shared buffers but byte 12
      of the send buffer. */
  lemma OthersUntouched(h: Hub, t: Turn, j: nat)
    requires Shared(h) && t.i < |h.socks| && j < |h.socks| && j != t.i
    ensures Load(HubStep(h, t), j) == Load(h, j).(staleWords := HubStep(h, t).words)
  {
    StepHolds(Load(h, t.i), t.e, h.size);
    StoredLoads(h, t.i, Step(Load(h, t.i), t.e), j);
  }

  /** Byte 12 is made w, then socket i has its turn. */
  ghost function Enter(h: Hub, i: nat, w: nibble, e: Event): (r: Hub)
    requires Shared(h) && i < |h.socks|
    ensures Shared(r) && |r.socks| == |h.socks|
  {
    HubStep(HubStep(h, Turn(i, Event(Api(OtherWrite(w)), [], 0, 0))), Turn(i, e))
  }

  lemma EnterLoads(h: Hub, i: nat, w: nibble, e: Event, j: nat)
    requires Shared(h) && i < |h.socks| && j < |h.socks| && i != j
    ensures Fits(h) && Fits(Enter(h, i, w, e))
    ensures var r := Enter(h, i, w, e);
      && Load(r, i) == Step(Load(h, i).(staleWords := w), e)
      && Load(r, j) == Load(h, j).(staleWords := r.words)
  {
    var t, u := Turn(i, Event(Api(OtherWrite(w)), [], 0, 0)), Turn(i, e);
    assert Fits(h);
    hide Load, Shared, Step, HubStep;
    StepLoads(h, t, j, i);
    StepLoads(HubStep(h, t), u, j, i);
    StepIgnores(Load(h, i), w, e);
  }

  /** An application that, in a callback of socket i, calls socket j: socket i sees an
      `OtherWrite` of what j leaves in byte 12, and j starts from byte 12 as i had left it.
      Taking j's part first gives the same: each steps from what it had when i was entered. */
  lemma NestedIsSequence(h: Hub, i: nat, ei: Event, j: nat, w: nibble, ej: Event)
    requires Shared(h) && i < |h.socks| && j < |h.socks| && i != j
    ensures Fits(h) && Fits(Enter(Enter(h, j, w, ej), i, h.words, ei))
    ensures var q := Enter(Enter(h, j, w, ej), i, h.words, ei);
      && Load(q, i) == Step(Load(h, i), ei)
      && Load(q, j) == Step(Load(h, j).(staleWords := w), ej).(staleWords := q.words)
  {
    hide Load, Shared, Step, Enter;
    EnterLoads(h, j, w, ej, i);
    EnterLoads(Enter(h, j, w, ej), i, h.words, ei, j);
    SameWords(h, i);
  }

  /** A turn of one socket, as it and another see it. */
  lemma StepLoads(h: Hub, t: Turn, i: nat, j: nat)
    requires Shared(h) && t.i == j < |h.socks| && i < |h.socks| && i != j
    ensures Fits(h) && Fits(HubStep(h, t))
    ensures var r := HubStep(h, t);
      && Load(r, j) == Step(Load(h, j), t.e) && Load(r, i) == Load(h, i).(staleWords := r.words)
  {
    StepHolds(Load(h, j), t.e, h.size);
    StoredLoads(h, j, Step(Load(h, j), t.e), i);
    StoredLoads(h, j, Step(Load(h, j), t.e), j);
  }

  lemma StepIgnores(s: Sock, w: nibble, e: Event)
    ensures Step(Step(s, Event(Api(OtherWrite(w)), [], 0, 0)), e) == Step(s.(staleWords := w), e)
  {
    var t := Step(s, Event(Api(OtherWrite(w)), [], 0, 0));
    assert t.(script := e.script, window := e.window) == s.(staleWords := w).(script := e.script, window := e.window);
    hide HandleSegment, CheckState, Connect, DoSend, DoClose, DoForceClose;
  }

  lemma SameWords(h: Hub, i: nat)
    requires Fits(h) && i < |h.socks|
    ensures Load(h, i).(staleWords := h.words) == Load(h, i)
  {
  }

  /** In every run, whatever the sockets do and in whatever order, every socket that awaits
      an ACK has exactly its in-flight payload at the start of its own slice. */
  lemma StashHoldsPayload(h: Hub, ts: seq<Turn>, i: nat)
    requires Registered(h) && Turns(h, ts) && i < |h.socks|
    ensures Shared(h)
    ensures var r := After(h, ts); var s := Load(r, i); var n := s.lastDataLength;
      s.state == ESTABLISHED | AWAITING_ACK ==>
        1 <= n <= r.size && n <= |s.sent| && s.stash[..n] == s.sent[|s.sent| - n..]
  {
    RegisteredShared(h);
    assert Holds(Load(After(h, ts), i), h.size);
  }

  lemma RegisteredShared(h: Hub)
    requires Registered(h)
    ensures Shared(h)
  {
    assert Fits(h);
    hide Holds, Resting, Load, Registered;
    forall i | 0 <= i < |h.socks| ensures Holds(Load(h, i), h.size) {
      LoadRests(h, i);
      RestingHolds(Load(h, i));
    }
  }

  lemma LoadRests(h: Hub, i: nat)
    requires Registered(h) && i < |h.socks|
    ensures Resting(Load(h, i)) && |Load(h, i).stash| == h.size
  {
    hide Resting;
    assert Resting(h.socks[i]);
    SameRest(h.socks[i], Load(h, i));
    SlicesApart(i, i, |h.socks|, h.size, |h.mem|);
  }

  lemma SameRest(s: Sock, t: Sock)
    requires Resting(s) && t.state == s.state && t.localSeq == s.localSeq
    ensures Resting(t)
  {
  }

  /** A socket that awaits an ACK and gets a due tick. */
  predicate Retransmits(s: Sock, now: nat) {
    && s.state == ESTABLISHED | AWAITING_ACK && s.attempts <= 10 && Sub32(now, s.stateTime) >= 1
    && !(s.timeout > 0 && Sub32(now, s.stateTime) > s.timeout)
  }

  /** Only `out` grows, by a segment that went out before and carries the last bytes sent. */
  ghost predicate SentAgain(s: Sock, r: Sock) {
    var n := s.lastDataLength;
    && r.localSeq == s.localSeq && r.state == s.state && r.stash == s.stash && r.sent == s.sent
    && 1 <= n <= |s.sent| && |r.out| == |s.out| + 1 && r.out[..|s.out|] == s.out
    && (var g := r.out[|s.out|]; g.payload == s.sent[|s.sent| - n..] && WentOut(s, g.seqNo, g.payload))
  }

  lemma TickSendsAgain(s: Sock, e: Event, size: nat)
    requires Holds(s, size) && e.act.Tick? && Retransmits(s, e.now)
    ensures SentAgain(s, Step(s, e))
  {
    hide WentOut;
    var t := s.(script := e.script, window := e.window, attempts := (s.attempts + 1) % 256);
    SameHolds(s, t, size);
    ResendHolds(t, size);
    var g := Segment(ACK, Sub32(t.localSeq, t.lastDataLength), t.remoteSeq, t.window, 5, t.stash[..t.lastDataLength]);
    assert Step(s, e) == Emit(t, g);
  }

  /** In every run, a due tick makes a socket that awaits an ACK send a segment that went out
      before, same sequence number and same bytes; its localSeq and the whole shared stash
      stay as they are. */
  lemma RetransmitsTheSame(h: Hub, ts: seq<Turn>, i: nat, e: Event)
    requires Registered(h) && Turns(h, ts) && i < |h.socks| && e.act.Tick?
    requires Shared(h) && Retransmits(Load(After(h, ts), i), e.now)
    ensures var r := After(h, ts); var q := HubStep(r, Turn(i, e));
      q.mem == r.mem && SentAgain(Load(r, i), Load(q, i))
  {
    ResendStep(After(h, ts), i, e);
  }

  lemma ResendStep(r: Hub, i: nat, e: Event)
    requires Shared(r) && i < |r.socks| && e.act.Tick? && Retransmits(Load(r, i), e.now)
    ensures HubStep(r, Turn(i, e)).mem == r.mem && SentAgain(Load(r, i), Load(HubStep(r, Turn(i, e)), i))
  {
    var s := Load(r, i);
    assert Holds(s, r.size);
    hide SentAgain, Retransmits, Step, Holds, Load;
    TickSendsAgain(s, e, r.size);
    StepHolds(s, e, r.size);
    StoredLoads(r, i, Step(s, e), i);
    SameStash(s, Step(s, e));
    SameMemory(r, i, Step(s, e));
  }

  /** Storing the stash that was there changes no memory. */
  lemma SameMemory(h: Hub, i: nat, s: Sock)
    requires Fits(h) && i < |h.socks| && |s.stash| == h.size && s.stash == Load(h, i).stash
    ensures Stored(h, i, s).mem == h.mem
  {
    SlicesApart(i, i, |h.socks|, h.size, |h.mem|);
    var lo := Base(i, h.size);
    assert h.mem == h.mem[..lo] + h.mem[lo..lo + h.size] + h.mem[lo + h.size..];
  }

  lemma SameStash(s: Sock, r: Sock)
    requires SentAgain(s, r)
    ensures r.stash == s.stash
  {
  }
}
