/** What one TCP socket does, as functions of its value: every branch of
    Socket.cpp for a socket that is registered with a TCPHandler and was built
    from an IP address or a listen port.

    The application is a script.  Each virtual callback runs the script up to the
    next `Done`, so a callback may send, close or abort the socket any number of
    times, and each of those calls may itself raise callbacks. */
module SocketModel {
  import opened Words

  const LISTEN: bv8 := 1
  const SYN_SENT: bv8 := 2
  const SYN_RECEIVED: bv8 := 3
  const ESTABLISHED: bv8 := 4
  const FIN_WAIT_1: bv8 := 5
  const FIN_WAIT_2: bv8 := 6
  const CLOSE_WAIT: bv8 := 7
  const CLOSING: bv8 := 8
  const LAST_ACK: bv8 := 9
  const TIME_WAIT: bv8 := 10
  const CLOSED: bv8 := 11
  const AWAITING_ACK: bv8 := 0xF0

  const ACK: bv8 := 16
  const PSH: bv8 := 8
  const RST: bv8 := 4
  const SYN: bv8 := 2
  const FIN: bv8 := 1

  const TIME_WAIT_DURATION := 240
  const ACK_WAIT_DURATION := 1

  /** A segment as handed to the IP layer: `words` is the header length nibble. */
  datatype Segment = Segment(opt: bv8, seqNo: nat, ackNo: nat, window: nat, words: nibble, payload: seq<byte>)

  /** A segment as a socket sees it arrive: `valid` tells whether the checksum
      matches, `size` is the whole length, `recv` the bytes from offset 4*words
      on, and `mss` the maximum segment size option of a six-word header. */
  datatype Arrival = Arrival(valid: bool, opt: bv8, seqNo: nat, ackNo: nat, window: nat,
                             words: nat, size: nat, recv: seq<byte>, mss: Option<nat>)

  /** The upper half of byte 12, the header length in words. */
  type nibble = x: int | 0 <= x < 16

  /** What an application may do inside a callback.  `OtherWrite` is anything that uses
      the IP payload buffer apart from this socket, a datagram or another socket, and
      leaves `words` in the upper half of byte 12.  `Done` ends the callback: it gives
      the result of onDataReceived and the window from then on. */
  datatype Call =
    | Send(data: seq<byte>)
    | Close
    | ForceClose
    | OtherWrite(words: nibble)
    | Done(accept: bool, window: word)

  predicate NoClose(script: seq<Call>) { Close !in script }

  /** The fields of a Socket, the pending script, and what an observer has seen:
      the segments emitted, the bytes sent, the bytes the application accepted
      and the (from, to) pair of every setState. */
  datatype Sock = Sock(
    host: bool,
    timeout: nat,
    state: bv8,
    localSeq: nat,
    remoteSeq: nat,
    remoteMSS: nat,
    remoteWindow: nat,
    stateTime: nat,
    attempts: nat,
    lastDataLength: nat,
    stash: seq<byte>,
    staleWords: nibble,
    script: seq<Call>,
    accept: bool,
    window: word,
    out: seq<Segment>,
    sent: seq<byte>,
    accepted: seq<byte>,
    edges: seq<(bv8, bv8)>)

  predicate Has(opt: bv8, flag: bv8) { opt & flag == flag }

  function Low(state: bv8): bv8 { state & 0x0F }

  predicate Awaiting(state: bv8) { state & AWAITING_ACK == AWAITING_ACK }

  predicate ReadyToSend(s: Sock) {
    Low(s.state) == ESTABLISHED && s.state & 0xF0 != AWAITING_ACK
  }

  predicate LocalClosed(s: Sock) {
    s.state == FIN_WAIT_1 || s.state == FIN_WAIT_2 || s.state == CLOSING || s.state == LAST_ACK ||
    s.state == TIME_WAIT || s.state == LISTEN || s.state == CLOSED
  }

  function MaxSendPayload(s: Sock): nat {
    var m := if s.remoteWindow < |s.stash| then s.remoteWindow else |s.stash|;
    if 0 < s.remoteMSS < m then s.remoteMSS else m
  }

  // ---------------------------------------------------------------- sending

  /** sendSegment: `seqNo` and `ackNo` matter only for a reset. */
  function SendSegment(s: Sock, control: bv8, payload: seq<byte>, seqNo: nat := 0, ackNo: nat := 0): Sock {
    var q := if Has(control, RST) then seqNo else s.localSeq;
    var a := if Has(control, RST) then ackNo else s.remoteSeq;
    if Has(control, SYN) then
      Emit(s, Segment(control, q, a, s.window, 6, payload)).(localSeq := Add32(s.localSeq, 1))
    else if Has(control, FIN) then
      Emit(s, Segment(control, q, a, s.window, s.staleWords, payload)).(localSeq := Add32(s.localSeq, 1))
    else if payload != [] then
      Emit(s, Segment(control, q, a, s.window, 5, payload)).(
        state := s.state | AWAITING_ACK,
        lastDataLength := |payload|,
        localSeq := Add32(s.localSeq, |payload|))
    else
      Emit(s, Segment(control, q, a, s.window, 5, payload))
  }

  function Emit(s: Sock, g: Segment): Sock { s.(out := s.out + [g], staleWords := g.words) }

  function DoSend(s: Sock, data: seq<byte>, now: nat): Sock {
    if data == [] || !ReadyToSend(s) || |data| > MaxSendPayload(s) then s
    else
      var t := s.(attempts := 1, stash := data + s.stash[|data|..], sent := s.sent + data);
      SendSegment(t, ACK | PSH, data).(stateTime := now)
  }

  function ResendData(s: Sock): Sock
    requires s.lastDataLength <= |s.stash|
  {
    SendSegment(s.(localSeq := Sub32(s.localSeq, s.lastDataLength)), ACK, s.stash[..s.lastDataLength])
  }

  function EmitReset(s: Sock, seqNo: nat, ackNo: nat): Sock {
    SendSegment(s, if ackNo == s.remoteSeq then RST | ACK else RST, [], seqNo, ackNo)
  }

  // --------------------------------------------- state changes and callbacks

  /** The assignment part of setState, before any event fires. */
  function Put(s: Sock, state: bv8, now: nat): Sock {
    s.(edges := s.edges + [(Low(s.state), state)], state := state, stateTime := now)
  }

  function Idle(s: Sock): bv8 { if s.host then LISTEN else CLOSED }

  /** Byte 12 of the send buffer is overwritten. */
  function Overwritten(s: Sock, words: nibble): Sock { s.(staleWords := words) }

  function Pop(s: Sock): Sock
    requires s.script != []
  {
    s.(script := s.script[1..])
  }

  /** An exhausted script refuses the data it is offered. */
  function Exhausted(s: Sock): Sock { s.(accept := false) }

  function Return(s: Sock): Sock
    requires s.script != [] && s.script[0].Done?
  {
    Pop(s).(accept := s.script[0].accept, window := s.script[0].window)
  }

  /** One callback. */
  function Fire(s: Sock, now: nat): (r: Sock)
    ensures |r.script| <= |s.script|
    decreases |s.script|, 0
  {
    if s.script == [] then Exhausted(s)
    else match s.script[0]
      case Done(_, _) => Return(s)
      case OtherWrite(words) => Fire(Overwritten(Pop(s), words), now)
      case Send(data) => Fire(DoSend(Pop(s), data, now), now)
      case ForceClose => Fire(DoForceClose(Pop(s), now), now)
      case Close => Fire(DoClose(Pop(s), now), now)
  }

  function SetState(s: Sock, state: bv8, now: nat): (r: Sock)
    ensures |r.script| <= |s.script|
    decreases |s.script|, 1
  {
    var p := Put(s, state, now);
    if state == CLOSED then Fire(p, now)
    else if state == ESTABLISHED then Fire(Fire(p, now), now)
    else p
  }

  function Reset(s: Sock, seqNo: nat, ackNo: nat, now: nat): (r: Sock)
    ensures |r.script| <= |s.script|
    decreases |s.script|, 1
  {
    Fire(EmitReset(s, seqNo, ackNo), now)
  }

  function DoForceClose(s: Sock, now: nat): (r: Sock)
    ensures |r.script| <= |s.script|
    decreases |s.script|, 2
  {
    var t := if s.state != TIME_WAIT then Reset(s, s.localSeq, s.remoteSeq, now) else s;
    SetState(t, Idle(t), now)
  }

  /** The FIN of close() and the state change that follows it. */
  function FinStep(s: Sock, now: nat): Sock {
    var t := SendSegment(s, FIN | ACK, []).(attempts := 1);
    if Low(t.state) == ESTABLISHED || t.state == SYN_RECEIVED then Put(t, FIN_WAIT_1, now)
    else if t.state == CLOSE_WAIT then Put(t, LAST_ACK, now)
    else t
  }

  function DoClose(s: Sock, now: nat): (r: Sock)
    ensures |r.script| <= |s.script|
    decreases |s.script|, 1
  {
    if LocalClosed(s) then s else Fire(FinStep(s, now), now)
  }

  function Abandon(s: Sock, now: nat): Sock { SetState(s, Idle(s), now) }

  // ---------------------------------------------------------- entry points

  function Connect(s: Sock, now: nat): Sock {
    if s.state != CLOSED then s
    else SetState(SendSegment(s, SYN, []).(attempts := 1), SYN_SENT, now)
  }

  function CheckState(s: Sock, now: nat): Sock {
    if s.state == CLOSED || s.state == LISTEN then s
    else
      var elapsed := Sub32(now, s.stateTime);
      var late := s.timeout > 0 && elapsed > s.timeout;
      if late && !LocalClosed(s) then DoClose(s, now)
      else
        var t := if late then DoForceClose(s, now) else s;
        if t.state == ESTABLISHED || elapsed < ACK_WAIT_DURATION then t
        else Retry(t, elapsed, now)
  }

  predicate Retries(state: bv8) {
    state == (ESTABLISHED | AWAITING_ACK) || state == SYN_SENT || state == SYN_RECEIVED ||
    state == FIN_WAIT_1 || state == CLOSING
  }

  function Retry(s: Sock, elapsed: nat, now: nat): Sock {
    if Retries(s.state) then
      var t := s.(attempts := (s.attempts + 1) % 256);
      if s.attempts > 10 then DoForceClose(t, now) else Resend(t, now)
    else if elapsed >= TIME_WAIT_DURATION && s.state == TIME_WAIT then Abandon(s, now)
    else s
  }

  function Resend(s: Sock, now: nat): Sock {
    var back := s.(localSeq := Sub32(s.localSeq, 1));
    if s.state == (ESTABLISHED | AWAITING_ACK) then
      if s.lastDataLength <= |s.stash| then ResendData(s)
      else DoForceClose(s.(localSeq := Sub32(s.localSeq, s.lastDataLength)), now)
    else if s.state == SYN_SENT then SendSegment(back, SYN, [])
    else if s.state == SYN_RECEIVED then SendSegment(back, SYN | ACK, [])
    else SendSegment(back, FIN | ACK, [])
  }

  predicate Synchronized(state: bv8) {
    state == ESTABLISHED || state == FIN_WAIT_1 || state == FIN_WAIT_2 || state == CLOSE_WAIT ||
    state == CLOSING || state == LAST_ACK || state == TIME_WAIT
  }

  predicate Unsynchronized(state: bv8) {
    state == LISTEN || state == SYN_SENT || state == SYN_RECEIVED
  }

  /** Segments that are answered before their content matters: the three cases of
      section 3.4 of RFC 793, and resets. */
  predicate Unacceptable(s: Sock, g: Arrival) {
    || (s.state == CLOSED && !Has(g.opt, RST))
    || (s.state == LISTEN && !Has(g.opt, SYN) && !Has(g.opt, RST))
    || (Unsynchronized(s.state) && Has(g.opt, ACK) && g.ackNo > s.localSeq)
    || (Synchronized(s.state) && ((Has(g.opt, ACK) && g.ackNo > s.localSeq) || g.seqNo > s.remoteSeq))
    || Has(g.opt, RST)
  }

  function Refused(s: Sock, g: Arrival, now: nat): Sock {
    if (s.state == CLOSED && !Has(g.opt, RST)) ||
       (s.state == LISTEN && !Has(g.opt, SYN) && !Has(g.opt, RST)) then Refuse(s, g, now)
    else if Unsynchronized(s.state) && Has(g.opt, ACK) && g.ackNo > s.localSeq then Reset(s, g.ackNo, 0, now)
    else if Synchronized(s.state) && ((Has(g.opt, ACK) && g.ackNo > s.localSeq) || g.seqNo > s.remoteSeq) then
      SendSegment(s, ACK, [])
    else HandleReset(s, g, now)
  }

  function HandleSegment(s0: Sock, g: Arrival, now: nat): Sock {
    var s := s0.(remoteWindow := g.window);
    if !g.valid then s
    else if Unacceptable(s, g) then Refused(s, g, now)
    else if s.state == LISTEN && g.opt == SYN then
      SetState(SendSegment(Learn(s, g), SYN | ACK, []), SYN_RECEIVED, now).(attempts := 1)
    else if s.state == SYN_SENT && g.opt == SYN then
      SendSegment(SetState(Learn(s, g), SYN_RECEIVED, now), ACK, [])
    else if s.state == SYN_SENT && g.opt == ACK | SYN && g.ackNo == s.localSeq then
      SetState(SendSegment(Learn(s, g), ACK, []), ESTABLISHED, now)
    else if Low(s.state) == ESTABLISHED then HandleEstablished(s, g, now)
    else if Has(g.opt, ACK) && g.ackNo == s.localSeq then Acknowledged(s, now)
    else DoForceClose(s, now)
  }

  function Refuse(s: Sock, g: Arrival, now: nat): Sock {
    if Has(g.opt, ACK) then Reset(s, g.ackNo, 0, now) else Reset(s, 0, Add32(g.seqNo, g.size), now)
  }

  function HandleReset(s: Sock, g: Arrival, now: nat): Sock {
    if s.state == SYN_SENT && g.ackNo == s.localSeq then Fire(Abandon(s, now), now)
    else if s.remoteSeq != g.seqNo || s.state == LISTEN then s
    else if s.state == SYN_RECEIVED then Abandon(s, now)
    else Fire(Abandon(s, now), now)
  }

  /** What a SYN teaches: the peer's sequence number and its segment size. */
  function Learn(s: Sock, g: Arrival): Sock {
    var t := s.(remoteSeq := Add32(g.seqNo, 1));
    if g.words == 6 && g.mss.Some? then t.(remoteMSS := g.mss.value) else t
  }

  function Acknowledged(s: Sock, now: nat): Sock {
    if s.state == SYN_RECEIVED then SetState(s, ESTABLISHED, now)
    else if s.state == FIN_WAIT_1 then SetState(s, FIN_WAIT_2, now)
    else if s.state == CLOSING then SetState(s, TIME_WAIT, now)
    else if s.state == LAST_ACK then Abandon(s, now)
    else s
  }

  function PayloadSize(g: Arrival): nat { (g.size - 4 * g.words) % MOD16 }

  function HandleEstablished(s: Sock, g: Arrival, now: nat): Sock {
    if !Has(g.opt, ACK) then s
    else if g.seqNo != s.remoteSeq then SendSegment(s, ACK, [])
    else
      var clearAck := g.ackNo == s.localSeq && Awaiting(s.state);
      var t := if PayloadSize(g) > 0 then TakeData(s, g, now) else s;
      var u := if Has(g.opt, FIN) then TakeFin(t, g, now) else t;
      if clearAck then Fire(u.(state := Low(u.state)), now) else u
  }

  function TakeData(s: Sock, g: Arrival, now: nat): Sock {
    var t := if Has(g.opt, FIN) then s.(remoteSeq := Add32(s.remoteSeq, 1)) else s;
    SendSegment(if g.recv != [] then Offer(t, g, now) else t, ACK, [])
  }

  /** onDataReceived and what follows when the application takes the data. */
  function Offer(s: Sock, g: Arrival, now: nat): Sock {
    var f := Fire(s, now);
    if f.accept then
      f.(remoteSeq := Add32(g.seqNo, PayloadSize(g)), accepted := f.accepted + g.recv, stateTime := now)
    else f
  }

  function TakeFin(s: Sock, g: Arrival, now: nat): Sock {
    var t := if PayloadSize(g) == 0 then SendSegment(s.(remoteSeq := Add32(s.remoteSeq, 1)), ACK, []) else s;
    var u :=
      if t.state == FIN_WAIT_1 then
        SetState(t, if Has(g.opt, ACK) && g.ackNo == t.localSeq then TIME_WAIT else CLOSING, now)
      else if t.state == FIN_WAIT_2 then SetState(t, TIME_WAIT, now)
      else if Low(t.state) == ESTABLISHED then SetState(t, CLOSE_WAIT, now)
      else t;
    Fire(u, now)
  }

  // ------------------------------------------------------------------ runs

  datatype Act = Open | Api(call: Call) | Tick | Arrive(g: Arrival)

  /** One entry into the socket: what happens, how the application's callbacks will
      behave meanwhile, the window it offers and the clock. */
  datatype Event = Event(act: Act, script: seq<Call>, window: word, now: nat)

  function Step(s0: Sock, e: Event): Sock {
    var s := s0.(script := e.script, window := e.window);
    match e.act
    case Open => Connect(s, e.now)
    case Tick => CheckState(s, e.now)
    case Arrive(g) => HandleSegment(s, g, e.now)
    case Api(Send(data)) => DoSend(s, data, e.now)
    case Api(Close) => DoClose(s, e.now)
    case Api(ForceClose) => DoForceClose(s, e.now)
    case Api(OtherWrite(words)) => Overwritten(s, words)
    case Api(Done(_, _)) => s
  }

  function Run(s: Sock, es: seq<Event>): Sock {
    if es == [] then s else Step(Run(s, es[..|es| - 1]), es[|es| - 1])
  }
}
