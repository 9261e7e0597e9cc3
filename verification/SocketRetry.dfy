/** A socket left alone: nothing arrives, the application does nothing, only the
    timer ticks.  The attempts counter bounds the retransmissions, except for a
    connecting socket whose timeout fires first: that one never closes. */
module SocketRetry {
  import opened Words
  import opened SocketModel

  function Ticks(s: Sock, times: seq<nat>): Sock {
    if times == [] then s else CheckState(Ticks(s, times[..|times| - 1]), times[|times| - 1])
  }

  /** Ticks a retransmission interval or more after the state was entered. */
  predicate Due(s: Sock, times: seq<nat>) {
    forall i :: 0 <= i < |times| ==> Sub32(times[i], s.stateTime) >= 1
  }

  predicate Late(s: Sock, now: nat) {
    s.timeout > 0 && Sub32(now, s.stateTime) > s.timeout
  }

  /** No tick comes after the timeout. */
  predicate Prompt(s: Sock, times: seq<nat>) {
    forall i :: 0 <= i < |times| ==> !Late(s, times[i])
  }

  /** The states in which a segment is repeated until it is answered. */
  predicate Repeats(state: bv8) {
    state == ESTABLISHED | AWAITING_ACK || state == SYN_SENT || state == SYN_RECEIVED ||
    state == FIN_WAIT_1 || state == CLOSING
  }

  predicate Waiting(s: Sock) {
    && Repeats(s.state) && s.script == [] && 1 <= s.attempts <= 11 && s.localSeq < MOD32
    && (s.state == ESTABLISHED | AWAITING_ACK ==> 1 <= s.lastDataLength <= |s.stash|)
  }

  /** The segment a waiting socket sends again: sequence number and bytes are those
      of the segment it is waiting for. */
  function Again(s: Sock): Segment
    requires Waiting(s)
  {
    if s.state == ESTABLISHED | AWAITING_ACK then
      Segment(ACK, Sub32(s.localSeq, s.lastDataLength), s.remoteSeq, s.window, 5, s.stash[..s.lastDataLength])
    else if s.state == SYN_SENT then Segment(SYN, Sub32(s.localSeq, 1), s.remoteSeq, s.window, 6, [])
    else if s.state == SYN_RECEIVED then Segment(SYN | ACK, Sub32(s.localSeq, 1), s.remoteSeq, s.window, 6, [])
    else Segment(FIN | ACK, Sub32(s.localSeq, 1), s.remoteSeq, s.window, s.staleWords, [])
  }

  function Repeated(g: Segment, n: nat): seq<Segment> { seq(n, i => g) }

  lemma RewindAndAdvance(x: nat, n: nat)
    requires x < MOD32
    ensures Add32(Sub32(x, n), n) == x
  {
  }

  lemma RetryOnce(s: Sock, now: nat)
    requires Waiting(s) && s.attempts <= 10 && !Late(s, now) && Sub32(now, s.stateTime) >= 1
    ensures CheckState(s, now) == Emit(s.(attempts := s.attempts + 1), Again(s))
  {
    RewindAndAdvance(s.localSeq, 1);
    RewindAndAdvance(s.localSeq, s.lastDataLength);
  }

  /** Without an application, an abort is a reset and a return to the idle state. */
  lemma QuietForceClose(s: Sock, now: nat)
    requires s.script == [] && s.state != TIME_WAIT
    ensures DoForceClose(s, now) == Put(EmitReset(s, s.localSeq, s.remoteSeq).(accept := false), Idle(s), now)
  {
    var e := EmitReset(s, s.localSeq, s.remoteSeq);
    assert Fire(e, now) == Exhausted(e);
    var p := Put(Exhausted(e), Idle(s), now);
    assert Fire(p, now) == Exhausted(p);
  }

  lemma GiveUp(s: Sock, now: nat)
    requires Waiting(s) && s.attempts == 11 && !Late(s, now) && Sub32(now, s.stateTime) >= 1
    ensures var r := CheckState(s, now);
      && r.state == Idle(s) && Idle(r) == Idle(s)
      && r.out == s.out + [Segment(RST | ACK, s.localSeq, s.remoteSeq, s.window, 5, [])]
  {
    QuietForceClose(s.(attempts := 12), now);
  }

  /** Until it gives up, a waiting socket only counts and repeats one segment. */
  lemma {:induction false} Waits(s: Sock, times: seq<nat>)
    requires Waiting(s) && Due(s, times) && |times| + s.attempts <= 11
    requires Prompt(s, times)
    ensures Ticks(s, times) ==
      s.(attempts := s.attempts + |times|,
         out := s.out + Repeated(Again(s), |times|),
         staleWords := if times == [] then s.staleWords else Again(s).words)
  {
    hide CheckState;
    if times == [] {
      assert s.out + Repeated(Again(s), 0) == s.out;
    } else {
      var n := |times| - 1;
      Waits(s, times[..n]);
      RetryOnce(Ticks(s, times[..n]), times[n]);
      assert Repeated(Again(s), n) + [Again(s)] == Repeated(Again(s), n + 1);
      assert s.out + Repeated(Again(s), n) + [Again(s)] == s.out + (Repeated(Again(s), n) + [Again(s)]);
    }
  }

  lemma {:induction false} IdleStays(s: Sock, times: seq<nat>)
    requires s.state == CLOSED || s.state == LISTEN
    ensures Ticks(s, times) == s
  {
    if times != [] {
      IdleStays(s, times[..|times| - 1]);
    }
  }

  lemma {:induction false} TicksSplit(s: Sock, x: seq<nat>, y: seq<nat>)
    ensures Ticks(s, x + y) == Ticks(Ticks(s, x), y)
  {
    if y == [] {
      assert x + y == x;
    } else {
      assert (x + y)[..|x + y| - 1] == x + y[..|y| - 1];
      TicksSplit(s, x, y[..|y| - 1]);
    }
  }

  /** The end of a waiting socket s: one segment repeated, then a reset. */
  ghost predicate Ended(s: Sock, r: Sock)
    requires Waiting(s)
  {
    && r.state == Idle(s)
    && r.out == s.out + Repeated(Again(s), 11 - s.attempts)
                      + [Segment(RST | ACK, s.localSeq, s.remoteSeq, s.window, 5, [])]
  }

  lemma LastTick(s: Sock, times: seq<nat>)
    requires Waiting(s) && Due(s, times) && Prompt(s, times) && |times| + s.attempts == 12
    ensures Ended(s, Ticks(s, times))
  {
    var n := |times| - 1;
    Waits(s, times[..n]);
    GiveUp(Ticks(s, times[..n]), times[n]);
  }

  /** A socket on attempt number `attempts` repeats its segment exactly 11 - attempts
      times, all with the same sequence number and bytes, and then resets: a first
      attempt is repeated ten times and the eleventh due tick ends it. */
  lemma AtMostTenRetries(s: Sock, times: seq<nat>)
    requires Waiting(s) && Due(s, times) && Prompt(s, times) && |times| + s.attempts >= 12
    ensures Ended(s, Ticks(s, times))
  {
    var n := 12 - s.attempts;
    LastTick(s, times[..n]);
    assert times == times[..n] + times[n..];
    TicksSplit(s, times[..n], times[n..]);
    IdleStays(Ticks(s, times[..n]), times[n..]);
  }

  lemma LateTick(s: Sock, now: nat)
    requires s.state == SYN_SENT && s.script == [] && Late(s, now)
    ensures CheckState(s, now) == SendSegment(s, FIN | ACK, []).(attempts := 1, accept := false)
  {
    var f := FinStep(s, now);
    assert Fire(f, now) == Exhausted(f);
  }

  /** The FINs of a connecting socket whose timeout has passed. */
  function Fins(s: Sock, n: nat): seq<Segment> {
    seq(n, i requires 0 <= i =>
      Segment(FIN | ACK, Add32(s.localSeq, i), s.remoteSeq, s.window, s.staleWords, []))
  }

  /** Once its timeout has passed a connecting socket calls close() at every tick, which
      leaves it connecting, sends one more FIN, moves localSeq on by one and starts counting
      attempts anew. */
  lemma {:induction false} LateConnectNeverEnds(s: Sock, times: seq<nat>)
    requires s.state == SYN_SENT && s.script == [] && s.localSeq < MOD32
    requires forall i :: 0 <= i < |times| ==> Late(s, times[i])
    ensures var r := Ticks(s, times);
      && r.state == SYN_SENT && r.stateTime == s.stateTime && r.timeout == s.timeout && r.script == []
      && (times != [] ==> r.attempts == 1)
      && r.out == s.out + Fins(s, |times|) && r.localSeq == Add32(s.localSeq, |times|)
      && r.remoteSeq == s.remoteSeq && r.window == s.window && r.staleWords == s.staleWords
  {
    if times == [] {
      assert s.out + Fins(s, 0) == s.out;
    } else {
      var n := |times| - 1;
      LateConnectNeverEnds(s, times[..n]);
      var t := Ticks(s, times[..n]);
      LateTick(t, times[n]);
      AddOn(s.localSeq, n);
      var g := Segment(FIN | ACK, t.localSeq, t.remoteSeq, t.window, t.staleWords, []);
      assert Fins(s, n) + [g] == Fins(s, n + 1);
      assert s.out + Fins(s, n) + [g] == s.out + (Fins(s, n) + [g]);
    }
  }

  lemma AddOn(x: nat, n: nat)
    ensures Add32(Add32(x, n), 1) == Add32(x, n + 1)
  {
    var q := (x + n) / MOD32;
    assert x + n == q * MOD32 + Add32(x, n);
  }

  lemma LateConnectHangs(s: Sock, times: seq<nat>, k: nat)
    requires Waiting(s) && s.state == SYN_SENT && Due(s, times) && k + s.attempts <= 11 && k <= |times|
    requires Prompt(s, times[..k]) && forall i :: k <= i < |times| ==> Late(s, times[i])
    ensures Ticks(s, times).state == SYN_SENT
  {
    assert Due(s, times[..k]);
    WaitedOn(s, times[..k]);
    var w := Ticks(s, times[..k]);
    assert w.script == [] && w.localSeq < MOD32;
    hide Ticks, Waiting, Repeated;
    assert forall i :: 0 <= i < |times[k..]| ==> Late(w, times[k..][i]);
    LateConnectNeverEnds(w, times[k..]);
    TicksSplit(s, times[..k], times[k..]);
    assert times == times[..k] + times[k..];
  }

  /** A time past the timeout is followed by such times only. */
  predicate LateFromThenOn(s: Sock, times: seq<nat>) {
    forall i, j :: 0 <= i < j < |times| && Late(s, times[i]) ==> Late(s, times[j])
  }

  lemma EndsInTime(s: Sock, times: seq<nat>, n: nat)
    requires Waiting(s) && Due(s, times) && n + s.attempts == 12 && 1 <= n <= |times| && !Late(s, times[n - 1])
    requires LateFromThenOn(s, times)
    ensures Ticks(s, times).state == Idle(s)
  {
    hide Ticks, Waiting, Late;
    assert Due(s, times[..n]) && Prompt(s, times[..n]);
    LastTick(s, times[..n]);
    TicksSplit(s, times[..n], times[n..]);
    assert times == times[..n] + times[n..];
    IdleStays(Ticks(s, times[..n]), times[n..]);
  }

  /** Exactly when a connecting socket gives up: when its timeout has not passed by
      the tick that would end the last attempt. */
  lemma ConnectEndsIff(s: Sock, times: seq<nat>)
    requires Waiting(s) && s.state == SYN_SENT && Due(s, times) && |times| + s.attempts >= 12
    requires LateFromThenOn(s, times)
    ensures Ticks(s, times).state == Idle(s) <==> !Late(s, times[11 - s.attempts])
  {
    var n := 12 - s.attempts;
    assert Idle(s) != SYN_SENT;
    hide Ticks, Late, Idle;
    if !Late(s, times[n - 1]) {
      EndsInTime(s, times, n);
    } else {
      var k := FirstLate(s, times, n - 1);
      assert Prompt(s, times[..k]);
      LateConnectHangs(s, times, k);
    }
  }

  function FirstLate(s: Sock, times: seq<nat>, n: nat): (k: nat)
    requires n < |times| && Late(s, times[n])
    requires LateFromThenOn(s, times)
    ensures k <= n && Late(s, times[k]) && forall i :: 0 <= i < k ==> !Late(s, times[i])
  {
    if n > 0 && Late(s, times[n - 1]) then FirstLate(s, times, n - 1) else n
  }

  // -------------------------------------------------- when the timeout passes

  /** Each tick comes a retransmission interval or more after the state then in force was
      entered. */
  predicate DueThrough(s: Sock, times: seq<nat>) {
    times != [] ==>
      var n := |times| - 1;
      && DueThrough(s, times[..n])
      && (Repeats(Ticks(s, times[..n]).state) ==>
            Sub32(times[n], Ticks(s, times[..n]).stateTime) >= 1)
  }

  /** The first late tick among the first n, or n. */
  function FirstLateBefore(s: Sock, times: seq<nat>, n: nat): (k: nat)
    requires n <= |times|
    ensures k <= n && (k < n ==> Late(s, times[k])) && forall i :: 0 <= i < k ==> !Late(s, times[i])
  {
    if n == 0 then 0
    else
      var k := FirstLateBefore(s, times, n - 1);
      if k < n - 1 || Late(s, times[n - 1]) then k else n
  }

  predicate Closing(s: Sock) { s.state == FIN_WAIT_1 || s.state == CLOSING }

  predicate Opening(s: Sock) { s.state == SYN_RECEIVED || s.state == ESTABLISHED | AWAITING_ACK }

  function Bye(s: Sock): Segment { Segment(RST | ACK, s.localSeq, s.remoteSeq, s.window, 5, []) }

  /** A socket that has sent its FIN gives up at once when the timeout has passed. */
  lemma LateAbort(s: Sock, now: nat)
    requires Waiting(s) && Closing(s) && Late(s, now)
    ensures var r := CheckState(s, now); r.state == Idle(s) && Idle(r) == Idle(s) && r.out == s.out + [Bye(s)]
  {
    QuietForceClose(s, now);
    hide DoForceClose;
  }

  /** One that has not closes first: a FIN, and a new count of attempts in FIN_WAIT_1. */
  lemma LateClose(s: Sock, now: nat)
    requires Waiting(s) && Opening(s) && Late(s, now)
    ensures var r := CheckState(s, now);
      && Waiting(r) && r.state == FIN_WAIT_1 && r.attempts == 1 && r.stateTime == now && r.timeout == s.timeout
      && r.host == s.host && Idle(r) == Idle(s)
      && r.out == s.out + [Segment(FIN | ACK, s.localSeq, s.remoteSeq, s.window, s.staleWords, [])]
  {
    var f := FinStep(s, now);
    assert Low(ESTABLISHED | AWAITING_ACK) == ESTABLISHED;
    assert Fire(f, now) == Exhausted(f);
    assert CheckState(s, now) == Exhausted(f);
  }

  lemma {:induction false} PrefixDue(s: Sock, times: seq<nat>, k: nat)
    requires DueThrough(s, times) && k <= |times|
    ensures DueThrough(s, times[..k])
    ensures k < |times| && Repeats(Ticks(s, times[..k]).state) ==>
              Sub32(times[k], Ticks(s, times[..k]).stateTime) >= 1
    decreases |times|
  {
    hide Ticks, Repeats;
    var n := |times| - 1;
    if k == |times| {
      assert times[..k] == times;
    } else if k < n {
      assert times[..n][..k] == times[..k] && times[..n][k] == times[k];
      PrefixDue(s, times[..n], k);
    }
  }

  /** A waiting socket after k ticks that are not late. */
  lemma WaitedOn(s: Sock, times: seq<nat>)
    requires Waiting(s) && Due(s, times) && Prompt(s, times) && |times| + s.attempts <= 11
    ensures var w := Ticks(s, times);
      && Waiting(w) && w.state == s.state && w.stateTime == s.stateTime && w.timeout == s.timeout
      && w.attempts == s.attempts + |times| && w.out == s.out + Repeated(Again(s), |times|)
      && Bye(w) == Bye(s) && Idle(w) == Idle(s)
  {
    Waits(s, times);
    hide Ticks;
  }

  /** While no tick is late the state stays, so that due ticks are due by the first state. */
  lemma {:induction false} DueWhilePrompt(s: Sock, times: seq<nat>, k: nat)
    requires Waiting(s) && DueThrough(s, times) && k <= |times| && k + s.attempts <= 11
    requires Prompt(s, times[..k])
    ensures Due(s, times[..k])
    ensures k < |times| ==> Sub32(times[k], s.stateTime) >= 1
  {
    hide Ticks, DueThrough, Late;
    if k > 0 {
      assert times[..k][..k - 1] == times[..k - 1];
      DueWhilePrompt(s, times, k - 1);
    }
    WaitedOn(s, times[..k]);
    PrefixDue(s, times, k);
  }

  /** The part of a run of ticks from the n-th on is due by the state at that point. */
  lemma {:induction false} DueFrom(s: Sock, times: seq<nat>, n: nat)
    requires DueThrough(s, times) && n <= |times|
    ensures DueThrough(Ticks(s, times[..n]), times[n..])
    decreases |times|
  {
    hide CheckState, Repeats;
    if n < |times| {
      var m := |times| - 1;
      DueFrom(s, times[..m], n);
      assert times[..m][..n] == times[..n] && times[..m][n..] == times[n..][..m - n];
      TicksSplit(s, times[..n], times[n..][..m - n]);
      assert times[..m] == times[..n] + times[n..][..m - n];
    }
  }

  /** The end of a socket that has sent its FIN: k repetitions and a reset. */
  lemma ClosingEnd(s: Sock, times: seq<nat>, k: nat)
    requires Waiting(s) && Closing(s) && DueThrough(s, times) && k < |times| && k + s.attempts <= 11
    requires Prompt(s, times[..k]) && (k + s.attempts == 11 || Late(s, times[k]))
    ensures Ticks(s, times).state == Idle(s)
    ensures Ticks(s, times).out == s.out + Repeated(Again(s), k) + [Bye(s)]
  {
    hide Ticks, CheckState, Waiting, DueThrough, Repeated;
    DueWhilePrompt(s, times, k);
    WaitedOn(s, times[..k]);
    var w := Ticks(s, times[..k]);
    if Late(s, times[k]) {
      LateAbort(w, times[k]);
    } else {
      GiveUp(w, times[k]);
    }
    TickAfter(s, times, k);
    TicksSplit(s, times[..k + 1], times[k + 1..]);
    assert times == times[..k + 1] + times[k + 1..];
    IdleStays(Ticks(s, times[..k + 1]), times[k + 1..]);
  }

  lemma TickAfter(s: Sock, times: seq<nat>, k: nat)
    requires k < |times|
    ensures Ticks(s, times[..k + 1]) == CheckState(Ticks(s, times[..k]), times[k])
  {
    assert times[..k + 1][..k] == times[..k];
  }

  /** In FIN_WAIT_1 and CLOSING, with any timeout: at most 11 - attempts repetitions of one
      segment, as many as there are ticks before the first late one, and then a reset; at most
      ten repetitions and eleven due ticks for a first attempt. */
  lemma ClosingRetries(s: Sock, times: seq<nat>)
    requires Waiting(s) && Closing(s) && DueThrough(s, times) && |times| + s.attempts >= 12
    ensures var k := FirstLateBefore(s, times, 11 - s.attempts);
      Ticks(s, times).state == Idle(s) && Ticks(s, times).out == s.out + Repeated(Again(s), k) + [Bye(s)]
  {
    ClosingEnd(s, times, FirstLateBefore(s, times, 11 - s.attempts));
  }

  /** Exactly when such a socket has ended: when its attempts are used up or some tick is
      late. */
  lemma ClosingEndsIff(s: Sock, times: seq<nat>)
    requires Waiting(s) && Closing(s) && DueThrough(s, times)
    ensures Ticks(s, times).state == Idle(s) <==>
              |times| + s.attempts >= 12 || exists i :: 0 <= i < |times| && Late(s, times[i])
  {
    var k := FirstLateBefore(s, times, |times|);
    if k < |times| && k + s.attempts <= 11 {
      ClosingEnd(s, times, k);
    } else if |times| + s.attempts >= 12 {
      ClosingEnd(s, times, 11 - s.attempts);
    } else {
      assert times[..k] == times;
      DueWhilePrompt(s, times, k);
      WaitedOn(s, times);
    }
  }

  /** Some tick after k is late by the time of tick k. */
  predicate LateAgain(s: Sock, times: seq<nat>, k: nat)
    requires k < |times|
  {
    exists j :: k < j < |times| && Sub32(times[j], times[k]) > s.timeout
  }

  /** Without a late tick the attempts must be used up.  The first late tick makes the socket
      close, and then eleven more ticks are needed, or one that is late again. */
  predicate OpeningOver(s: Sock, times: seq<nat>)
    requires Waiting(s)
  {
    var n := if |times| + s.attempts <= 12 then |times| else 12 - s.attempts;
    var k := FirstLateBefore(s, times, n);
    if k == n then |times| + s.attempts >= 12 else |times| - k >= 12 || LateAgain(s, times, k)
  }

  /** Exactly when a socket in SYN_RECEIVED, or one that awaits an ACK, has ended. */
  lemma OpeningEndsIff(s: Sock, times: seq<nat>)
    requires Waiting(s) && Opening(s) && DueThrough(s, times)
    ensures Ticks(s, times).state == Idle(s) <==> OpeningOver(s, times)
  {
    assert Idle(s) != s.state;
    hide Ticks, DueThrough, Late, Repeated, Idle, LateAgain, Bye;
    var n := if |times| + s.attempts <= 12 then |times| else 12 - s.attempts;
    var k := FirstLateBefore(s, times, n);
    if k < n {
      OpeningCloses(s, times, k);
    } else if |times| + s.attempts >= 12 {
      DueWhilePrompt(s, times, n - 1);
      OpeningGivesUp(s, times, n);
    } else {
      assert times[..k] == times;
      DueWhilePrompt(s, times, k);
      WaitedOn(s, times);
    }
  }

  /** Ticks that are due by the first state are due throughout if none but the last is late. */
  lemma {:induction false} DueIsDueThrough(s: Sock, times: seq<nat>)
    requires Waiting(s) && Due(s, times) && |times| + s.attempts <= 12
    requires times != [] ==> Prompt(s, times[..|times| - 1])
    ensures DueThrough(s, times)
  {
    hide Ticks, Late;
    if times != [] {
      var n := |times| - 1;
      assert n > 0 ==> times[..n][..n - 1] == times[..n - 1];
      DueIsDueThrough(s, times[..n]);
      WaitedOn(s, times[..n]);
    }
  }

  /** Eleven due ticks do not always end a first attempt: with a timeout of 5, ten ticks at 1
      and one at 6 leave the socket waiting for an answer to its FIN. */
  lemma ElevenTicksMayNotDo(s: Sock)
    requires Waiting(s) && Opening(s) && s.attempts == 1 && s.stateTime == 0 && s.timeout == 5
    ensures var times := seq(10, _ => 1) + [6];
      |times| == 11 && DueThrough(s, times) && Ticks(s, times).state != Idle(s)
  {
    var times: seq<nat> := seq(10, _ => 1) + [6];
    assert times[..10] == seq(10, _ => 1) && times[10] == 6;
    DueIsDueThrough(s, times);
    OpeningEndsIff(s, times);
    var k := FirstLateBefore(s, times, 11);
    assert !Late(s, 1) && Late(s, times[10]);
  }

  lemma OpeningGivesUp(s: Sock, times: seq<nat>, n: nat)
    requires Waiting(s) && n + s.attempts == 12 && 1 <= n <= |times| && Prompt(s, times[..n])
    requires Due(s, times[..n - 1]) && Sub32(times[n - 1], s.stateTime) >= 1
    ensures Ticks(s, times).state == Idle(s)
  {
    assert Due(s, times[..n]);
    hide Ticks, Waiting, Late;
    LastTick(s, times[..n]);
    TicksSplit(s, times[..n], times[n..]);
    assert times == times[..n] + times[n..];
    IdleStays(Ticks(s, times[..n]), times[n..]);
  }

  lemma OpeningCloses(s: Sock, times: seq<nat>, k: nat)
    requires Waiting(s) && Opening(s) && DueThrough(s, times) && k < |times| && k + s.attempts <= 11
    requires Prompt(s, times[..k]) && Late(s, times[k])
    ensures Ticks(s, times).state == Idle(s) <==>
              |times| - k >= 12 || LateAgain(s, times, k)
  {
    hide Ticks, CheckState, Waiting, DueThrough, Repeated;
    DueWhilePrompt(s, times, k);
    WaitedOn(s, times[..k]);
    var w := Ticks(s, times[..k]);
    LateClose(w, times[k]);
    TickAfter(s, times, k);
    var f, rest := Ticks(s, times[..k + 1]), times[k + 1..];
    DueFrom(s, times, k + 1);
    ClosingEndsIff(f, rest);
    TicksSplit(s, times[..k + 1], rest);
    assert times == times[..k + 1] + rest;
    assert forall i :: 0 <= i < |rest| ==> rest[i] == times[k + 1 + i];
    if j :| k < j < |times| && Sub32(times[j], times[k]) > s.timeout {
      assert Late(f, rest[j - k - 1]);
    }
  }

  // ------------------------------------------------------------- the measure

  /** How many more due ticks a waiting socket can live through: its attempts, and the attempts
      of its FIN if it has not sent one. */
  function Rank(s: Sock): nat
    requires Waiting(s)
  {
    (if Closing(s) then 12 else 23) - s.attempts
  }

  lemma CountsDown(s: Sock, now: nat)
    requires Waiting(s) && s.state != SYN_SENT && Sub32(now, s.stateTime) >= 1
    ensures var r := CheckState(s, now);
      && Idle(r) == Idle(s)
      && (r.state == Idle(s) || (Waiting(r) && r.state != SYN_SENT && Rank(r) < Rank(s)))
  {
    if Late(s, now) {
      if Closing(s) {
        LateAbort(s, now);
      } else {
        LateClose(s, now);
      }
    } else if s.attempts == 11 {
      GiveUp(s, now);
    } else {
      RetryOnce(s, now);
    }
  }

  /** Whatever the timeout, and wherever it falls: a waiting socket other than a connecting one
      is idle after `Rank` due ticks, at most 11 when it has sent its FIN and 22 before. */
  lemma {:induction false} EndsWithinRank(s: Sock, times: seq<nat>)
    requires Waiting(s) && s.state != SYN_SENT && DueThrough(s, times) && |times| >= Rank(s)
    ensures Ticks(s, times).state == Idle(s)
  {
    RankFalls(s, times);
  }

  lemma {:induction false} RankFalls(s: Sock, times: seq<nat>)
    requires Waiting(s) && s.state != SYN_SENT && DueThrough(s, times)
    ensures var r := Ticks(s, times);
      && Idle(r) == Idle(s)
      && (r.state == Idle(s) || (Waiting(r) && r.state != SYN_SENT && Rank(r) + |times| <= Rank(s)))
  {
    if times != [] {
      var n := |times| - 1;
      RankFalls(s, times[..n]);
      var t := Ticks(s, times[..n]);
      if t.state != Idle(s) {
        CountsDown(t, times[n]);
      }
    }
  }

  // ------------------------------------------------- states that only wait

  /** A tick that is not late changes nothing within a retransmission interval, nor in a state
      that repeats nothing, but for the end of TIME_WAIT. */
  lemma TickLeavesAlone(s: Sock, now: nat)
    requires !Late(s, now)
    requires Sub32(now, s.stateTime) < 1 || s.state == ESTABLISHED || s.state == FIN_WAIT_2 || s.state == CLOSE_WAIT ||
             s.state == LAST_ACK || (s.state == TIME_WAIT && Sub32(now, s.stateTime) < 240) ||
             s.state == LISTEN || s.state == CLOSED
    ensures CheckState(s, now) == s
  {
  }

  /** A tick that ends TIME_WAIT: after 240, or past the timeout.  No segment goes out. */
  lemma TimeWaitTick(s: Sock, now: nat)
    requires s.state == TIME_WAIT && s.script == []
    ensures var over := Sub32(now, s.stateTime) >= 240 || Late(s, now);
      CheckState(s, now) ==
        if over then Put(s, Idle(s), now).(accept := if s.host then s.accept else false) else s
  {
    var p := Put(s, Idle(s), now);
    assert Fire(p, now) == Exhausted(p);
    assert Abandon(s, now) == if s.host then p else Exhausted(p);
    assert DoForceClose(s, now) == Abandon(s, now);
    assert !Retries(Idle(s)) && Idle(s) != TIME_WAIT && !Retries(TIME_WAIT);
    hide DoForceClose, Abandon, Fire;
  }

  /** Exactly when TIME_WAIT ends: at the first tick 240 or more after it was entered, or past
      the timeout.  Until then nothing changes. */
  lemma {:induction false} TimeWaitEndsIff(s: Sock, times: seq<nat>)
    requires s.state == TIME_WAIT && s.script == []
    ensures var over := exists i :: 0 <= i < |times| && (Sub32(times[i], s.stateTime) >= 240 || Late(s, times[i]));
      (Ticks(s, times).state == Idle(s) <==> over) && (!over ==> Ticks(s, times) == s)
      && Idle(Ticks(s, times)) == Idle(s) && Ticks(s, times).out == s.out
  {
    hide CheckState;
    if times != [] {
      var n := |times| - 1;
      TimeWaitEndsIff(s, times[..n]);
      var t := Ticks(s, times[..n]);
      if t == s {
        TimeWaitTick(s, times[n]);
      } else {
        IdleTick(t, times[n]);
      }
    }
  }

  lemma IdleTick(s: Sock, now: nat)
    requires s.state == CLOSED || s.state == LISTEN
    ensures CheckState(s, now) == s
  {
  }

  /** In FIN_WAIT_2 and LAST_ACK nothing is repeated and nothing runs out: a socket left there is
      idle exactly when some tick comes past its timeout, and without a timeout it stays for
      ever. */
  lemma {:induction false} DeafEndsIff(s: Sock, times: seq<nat>)
    requires (s.state == FIN_WAIT_2 || s.state == LAST_ACK) && s.script == []
    ensures var over := exists i :: 0 <= i < |times| && Late(s, times[i]);
      (Ticks(s, times).state == Idle(s) <==> over) && (!over ==> Ticks(s, times) == s)
      && Idle(Ticks(s, times)) == Idle(s)
  {
    hide CheckState;
    if times != [] {
      var n := |times| - 1;
      DeafEndsIff(s, times[..n]);
      var t := Ticks(s, times[..n]);
      if t == s {
        DeafTick(s, times[n]);
      } else {
        IdleTick(t, times[n]);
      }
    }
  }

  lemma DeafTick(s: Sock, now: nat)
    requires (s.state == FIN_WAIT_2 || s.state == LAST_ACK) && s.script == []
    ensures var r := CheckState(s, now);
      if Late(s, now) then r.state == Idle(s) && Idle(r) == Idle(s) && r.out == s.out + [Bye(s)] else r == s
  {
    if Late(s, now) {
      QuietForceClose(s, now);
      hide DoForceClose;
    }
  }

  /** A late tick makes a socket that has not sent a FIN close: one FIN, attempts counted from 1,
      and FIN_WAIT_1, or LAST_ACK when the peer has closed. */
  lemma LateTickCloses(s: Sock, now: nat)
    requires (Low(s.state) == ESTABLISHED || s.state == SYN_RECEIVED || s.state == CLOSE_WAIT)
    requires s.script == [] && Late(s, now) && s.localSeq < MOD32
    ensures var r := CheckState(s, now);
      && r.state == (if s.state == CLOSE_WAIT then LAST_ACK else FIN_WAIT_1) && r.stateTime == now && r.attempts == 1
      && r.localSeq == Add32(s.localSeq, 1)
      && r.out == s.out + [Segment(FIN | ACK, s.localSeq, s.remoteSeq, s.window, s.staleWords, [])]
  {
    var f := FinStep(s, now);
    assert !LocalClosed(s) && s.state != CLOSED && s.state != LISTEN;
    assert !Has(FIN | ACK, RST) && !Has(FIN | ACK, SYN) && Has(FIN | ACK, FIN);
    hide Has, Low;
    assert Fire(f, now) == Exhausted(f);
    assert CheckState(s, now) == Exhausted(f);
  }
}
