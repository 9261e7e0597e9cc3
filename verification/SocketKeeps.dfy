/** One induction for everything a callback can do.  A property that survives each
    primitive effect of the public API survives every callback, however deeply the
    callbacks nest. */
module SocketKeeps {
  import opened Words
  import opened SocketModel

  /** P survives each thing a callback can do at one level. */
  ghost predicate Stable(P: Sock -> bool, now: nat) {
    && (forall s: Sock {:trigger Exhausted(s)} :: P(s) && s.script == [] ==> P(Exhausted(s)))
    && (forall s: Sock {:trigger Return(s)} :: P(s) && s.script != [] && s.script[0].Done? ==> P(Return(s)))
    && (forall s: Sock {:trigger Pop(s)} :: P(s) && s.script != [] ==> P(Pop(s)))
    && (forall s: Sock {:trigger Pop(s)} :: P(s) && s.script != [] && s.script[0].OtherWrite? ==>
          P(Overwritten(Pop(s), s.script[0].words)))
    && (forall s: Sock, data: seq<byte> {:trigger DoSend(s, data, now)} :: P(s) ==> P(DoSend(s, data, now)))
    && (forall s: Sock {:trigger Put(s, Idle(s), now)} :: P(s) ==> P(Put(s, Idle(s), now)))
    && (forall s: Sock, q: nat, a: nat {:trigger EmitReset(s, q, a)} :: P(s) ==> P(EmitReset(s, q, a)))
    && (forall s: Sock {:trigger FinStep(Pop(s), now)} ::
          P(s) && s.script != [] && s.script[0].Close? && !LocalClosed(s) ==> P(FinStep(Pop(s), now)))
  }

  lemma {:induction false} FireKeeps(P: Sock -> bool, s: Sock, now: nat)
    requires Stable(P, now) && P(s)
    ensures P(Fire(s, now))
    decreases |s.script|, 0
  {
    if s.script != [] {
      match s.script[0] {
        case Done(_, _) =>
        case OtherWrite(words) => FireKeeps(P, Overwritten(Pop(s), words), now);
        case Send(data) => FireKeeps(P, DoSend(Pop(s), data, now), now);
        case ForceClose =>
          ForceCloseKeeps(P, Pop(s), now);
          FireKeeps(P, DoForceClose(Pop(s), now), now);
        case Close =>
          var t := Pop(s);
          if !LocalClosed(t) {
            FireKeeps(P, FinStep(t, now), now);
          }
          FireKeeps(P, DoClose(t, now), now);
      }
    }
  }

  lemma {:induction false} ForceCloseKeeps(P: Sock -> bool, s: Sock, now: nat)
    requires Stable(P, now) && P(s)
    ensures P(DoForceClose(s, now))
    decreases |s.script|, 2
  {
    var t := if s.state != TIME_WAIT then Reset(s, s.localSeq, s.remoteSeq, now) else s;
    if s.state != TIME_WAIT {
      FireKeeps(P, EmitReset(s, s.localSeq, s.remoteSeq), now);
    }
    AbandonKeeps(P, t, now);
  }

  lemma {:induction false} AbandonKeeps(P: Sock -> bool, s: Sock, now: nat)
    requires Stable(P, now) && P(s)
    ensures P(Abandon(s, now))
    decreases |s.script|, 1
  {
    var p := Put(s, Idle(s), now);
    if !s.host {
      FireKeeps(P, p, now);
    }
  }

  lemma ResetKeeps(P: Sock -> bool, s: Sock, seqNo: nat, ackNo: nat, now: nat)
    requires Stable(P, now) && P(s)
    ensures P(Reset(s, seqNo, ackNo, now))
  {
    FireKeeps(P, EmitReset(s, seqNo, ackNo), now);
  }
}
