/** The ARP table: a bounded table of pending and resolved rows, retried from a timer in
    the shared registry, which behaves like a map from address to last accepted reply. */
module Arp {
  import opened Words
  import opened Timers

  const NO_IP: Ip := [0, 0, 0, 0]
  const NO_MAC: Mac := [0, 0, 0, 0, 0, 0]

  /** This handler's name in the timer registry. */
  const ARP := 1

  /** A row of the table.  The status byte is bit 7, `resolved`, and the attempt count;
      `since` is how many requests had gone out when the row was last filled in. */
  datatype Row = Row(ip: Ip, mac: Mac, time: nat, resolved: bool, count: nat, since: nat)

  const FREE := Row(NO_IP, NO_MAC, 0, false, 0, 0)

  /** ATTEMPTCOUNT: the shifts of the macro are done in int and keep the resolved bit. */
  function AttemptCount(r: Row): nat { if r.resolved then 128 + r.count else r.count }

  predicate Pending(r: Row) { !r.resolved && AttemptCount(r) != 0 }

  /** The handler, the registry it shares with other handlers, the requests it has sent
      and the replies it has accepted. */
  datatype State = State(table: seq<Row>, timer: nat, slots: Slots, requests: seq<Ip>, accepted: seq<(Ip, Mac)>)

  // ------------------------------------------------------------- operations

  /** The first row at or after i with the address. */
  function Find(t: seq<Row>, ip: Ip, i: nat): (k: nat)
    requires i <= |t|
    ensures i <= k <= |t| && (k < |t| ==> t[k].ip == ip) && forall j :: i <= j < k ==> t[j].ip != ip
    decreases |t| - i
  {
    if i == |t| || t[i].ip == ip then i else Find(t, ip, i + 1)
  }

  /** The first row at or after i that is not in use. */
  function FindFree(t: seq<Row>, i: nat): (k: nat)
    requires i <= |t|
    ensures i <= k <= |t| && (k < |t| ==> !t[k].resolved && AttemptCount(t[k]) == 0)
    ensures forall j :: i <= j < k ==> t[j].resolved || AttemptCount(t[j]) != 0
    decreases |t| - i
  {
    if i == |t| || (!t[i].resolved && AttemptCount(t[i]) == 0) then i else FindFree(t, i + 1)
  }

  /** getMACAddress. */
  function Lookup(t: seq<Row>, ip: Ip): Option<Mac> {
    var k := Find(t, ip, 0);
    if k < |t| && t[k].resolved then Some(t[k].mac) else None
  }

  /** handlePayload for a reply addressed to this host. */
  function Reply(s: State, ip: Ip, mac: Mac): State {
    var k := Find(s.table, ip, 0);
    if k == |s.table| then s
    else
      var r := s.table[k];
      s.(table := s.table[k := r.(mac := mac, resolved := true)], accepted := s.accepted + [(ip, mac)])
  }

  /** requestMACAddress once the row is known: the timer, the row and the request. */
  function Ask(s: State, k: nat, ip: Ip, now: nat): State
    requires k < |s.table|
  {
    var (slots, timer) := if s.timer == 0 then Registered(s.slots, ARP) else (s.slots, s.timer);
    if timer == 0 then s
    else
      var r := s.table[k].(count := 1, time := now, ip := ip, since := |s.requests|);
      s.(table := s.table[k := r], timer := timer, slots := slots, requests := s.requests + [ip])
  }

  /** requestMACAddress: a pending row is left alone, a resolved one is asked for again, an
      unknown address takes the first free row. */
  function Request(s: State, ip: Ip, now: nat): State {
    var k := Find(s.table, ip, 0);
    if k < |s.table| then if s.table[k].resolved then Ask(s, k, ip, now) else s
    else
      var f := FindFree(s.table, 0);
      if f == |s.table| then s else Ask(s, f, ip, now)
  }

  /** Whether requestMACAddress reports success: the address is being looked up already, or there
      is a row for it and a timer. */
  predicate RequestTaken(s: State, ip: Ip) {
    var k := Find(s.table, ip, 0);
    var f := FindFree(s.table, 0);
    if k < |s.table| && !s.table[k].resolved then true
    else if k == |s.table| && f == |s.table| then false
    else s.timer != 0 || Registered(s.slots, ARP).1 != 0
  }

  predicate Due(r: Row, now: nat) { Pending(r) && Sub32(now, r.time) >= 250 }

  /** What a tick does to one row. */
  function Retried(r: Row, now: nat): Row {
    if !Due(r, now) then r else if AttemptCount(r) >= 5 then FREE else r.(count := AttemptCount(r) + 1, time := now)
  }

  function Asks(r: Row, now: nat): seq<Ip> {
    if Due(r, now) && AttemptCount(r) < 5 then [r.ip] else []
  }

  function TickTable(t: seq<Row>, now: nat): (r: seq<Row>)
    ensures |r| == |t| && forall i :: 0 <= i < |t| ==> r[i] == Retried(t[i], now)
  {
    if t == [] then [] else TickTable(t[..|t| - 1], now) + [Retried(t[|t| - 1], now)]
  }

  function TickRequests(t: seq<Row>, now: nat): seq<Ip> {
    if t == [] then [] else TickRequests(t[..|t| - 1], now) + Asks(t[|t| - 1], now)
  }

  predicate AnyPending(t: seq<Row>) { exists i :: 0 <= i < |t| && Pending(t[i]) }

  /** handleTimer: the timer is given back when no row was pending. */
  function Tick(s: State, now: nat): State
    requires s.timer <= |s.slots|
  {
    var t := s.(table := TickTable(s.table, now), requests := s.requests + TickRequests(s.table, now));
    if !AnyPending(s.table) && s.timer != 0 then t.(timer := 0, slots := Unregistered(s.slots, s.timer)) else t
  }

  // -------------------------------------------------------------- invariant

  function Asked(requests: seq<Ip>, from: nat, ip: Ip): nat
    requires from <= |requests|
  {
    if from == |requests| then 0
    else Asked(requests[..|requests| - 1], from, ip) + if requests[|requests| - 1] == ip then 1 else 0
  }

  /** A row is free, pending with a count of 1 to 5 that is the number of requests it has
      had, or resolved. */
  ghost predicate RowOk(r: Row, requests: seq<Ip>) {
    if AttemptCount(r) == 0 then r == FREE
    else
      && r.ip != NO_IP && r.since <= |requests| && 1 <= r.count <= 5
      && (!r.resolved ==> r.count == Asked(requests, r.since, r.ip))
  }

  ghost predicate Inv(s: State) {
    && (forall i :: 0 <= i < |s.table| ==> RowOk(s.table[i], s.requests))
    && DistinctIps(s.table)
    && s.timer <= |s.slots|
    && (s.timer != 0 ==> s.slots[s.timer - 1] == Some(ARP))
    && (AnyPending(s.table) ==> s.timer != 0)
  }

  /** The mac of the last accepted reply for an address. */
  function LastReply(accepted: seq<(Ip, Mac)>, ip: Ip): Option<Mac> {
    if accepted == [] then None
    else if accepted[|accepted| - 1].0 == ip then Some(accepted[|accepted| - 1].1)
    else LastReply(accepted[..|accepted| - 1], ip)
  }

  /** The table shows exactly the last accepted replies. */
  ghost predicate Shows(s: State) {
    forall ip: Ip :: ip != NO_IP ==> Lookup(s.table, ip) == LastReply(s.accepted, ip)
  }

  // ------------------------------------------------------------------- runs

  /** What can happen: calls and replies for real addresses, ticks, and other handlers that
      take and return timers of their own. */
  datatype Event =
    | AskFor(ip: Ip, at: nat)
    | ReplyFrom(ip: Ip, mac: Mac)
    | Tock(at: nat)
    | OtherTakes(handler: nat)
    | OtherReturns(index: nat)

  predicate Proper(s: State, e: Event) {
    match e
    case AskFor(ip, _) => ip != NO_IP
    case ReplyFrom(ip, _) => ip != NO_IP
    case Tock(_) => s.timer <= |s.slots|
    case OtherTakes(h) => h != ARP
    case OtherReturns(i) => 1 <= i <= |s.slots| && s.slots[i - 1] != Some(ARP)
  }

  function Step(s: State, e: Event): State
    requires Proper(s, e)
  {
    match e
    case AskFor(ip, at) => Request(s, ip, at)
    case ReplyFrom(ip, mac) => Reply(s, ip, mac)
    case Tock(at) => Tick(s, at)
    case OtherTakes(h) => s.(slots := Registered(s.slots, h).0)
    case OtherReturns(i) => s.(slots := Unregistered(s.slots, i))
  }

  lemma {:induction false} AskedAppend(x: seq<Ip>, y: seq<Ip>, from: nat, ip: Ip)
    requires from <= |x|
    ensures Asked(x + y, from, ip) == Asked(x, from, ip) + Asked(y, 0, ip)
  {
    if y == [] {
      assert x + y == x;
    } else {
      assert (x + y)[..|x + y| - 1] == x + y[..|y| - 1];
      AskedAppend(x, y[..|y| - 1], from, ip);
    }
  }

  /** Requests that leave a row's count right. */
  lemma RowKept(r: Row, requests: seq<Ip>, more: seq<Ip>)
    requires RowOk(r, requests) && (Pending(r) ==> Asked(more, 0, r.ip) == 0)
    ensures RowOk(r, requests + more)
  {
    if Pending(r) {
      AskedAppend(requests, more, r.since, r.ip);
    }
  }

  lemma {:induction false} LastReplyStep(accepted: seq<(Ip, Mac)>, ip: Ip, mac: Mac, other: Ip)
    ensures LastReply(accepted + [(ip, mac)], other) == if ip == other then Some(mac) else LastReply(accepted, other)
  {
    assert (accepted + [(ip, mac)])[..|accepted|] == accepted;
  }

  lemma ReplyKeeps(s: State, ip: Ip, mac: Mac)
    requires Inv(s) && Shows(s) && ip != NO_IP
    ensures Inv(Reply(s, ip, mac)) && Shows(Reply(s, ip, mac))
  {
    var k := Find(s.table, ip, 0);
    if k < |s.table| {
      var r := Reply(s, ip, mac);
      forall other: Ip | other != NO_IP ensures Lookup(r.table, other) == LastReply(r.accepted, other) {
        LastReplyStep(s.accepted, ip, mac, other);
        SameSearch(s.table, r.table, other);
      }
    }
  }

  lemma SameSearch(t: seq<Row>, u: seq<Row>, ip: Ip)
    requires |t| == |u| && forall i :: 0 <= i < |t| ==> t[i].ip == u[i].ip
    ensures Find(t, ip, 0) == Find(u, ip, 0)
  {
  }

  lemma AskKeeps(s: State, k: nat, ip: Ip, now: nat)
    requires Inv(s) && Shows(s) && ip != NO_IP && k < |s.table|
    requires if s.table[k].resolved then s.table[k].ip == ip
             else s.table[k] == FREE && Find(s.table, ip, 0) == |s.table|
    ensures Inv(Ask(s, k, ip, now)) && Shows(Ask(s, k, ip, now))
  {
    var r := Ask(s, k, ip, now);
    if r != s {
      assert Asked([ip], 0, ip) == 1 by {
        assert [ip][..0] == [];
      }
      forall i | 0 <= i < |r.table| ensures RowOk(r.table[i], r.requests) {
        if i == k {
          AskedAppend(s.requests, [ip], |s.requests|, ip);
        } else {
          assert [ip][..0] == [];
          RowKept(s.table[i], s.requests, [ip]);
        }
      }
      forall other: Ip | other != NO_IP ensures Lookup(r.table, other) == Lookup(s.table, other) {
        AskSearch(s.table, r.table, k, ip, other);
      }
    }
  }

  /** Filling in row k changes no lookup. */
  lemma AskSearch(t: seq<Row>, u: seq<Row>, k: nat, ip: Ip, other: Ip)
    requires k < |t| && |u| == |t| && other != NO_IP && u[k].ip == ip
    requires forall i :: 0 <= i < |t| && i != k ==> u[i] == t[i]
    requires u[k].resolved == t[k].resolved && u[k].mac == t[k].mac
    requires t[k].ip == ip || (!t[k].resolved && t[k].ip == NO_IP && Find(t, ip, 0) == |t|)
    ensures Lookup(u, other) == Lookup(t, other)
  {
    var a, b := Find(t, other, 0), Find(u, other, 0);
  }

  predicate DistinctIps(t: seq<Row>) {
    forall i, j :: 0 <= i < j < |t| && t[i].ip != NO_IP ==> t[i].ip != t[j].ip
  }

  lemma {:induction false} TickAsksNobody(t: seq<Row>, now: nat, ip: Ip)
    requires forall i :: 0 <= i < |t| ==> t[i].ip != ip
    ensures Asked(TickRequests(t, now), 0, ip) == 0
  {
    if t != [] {
      var k := |t| - 1;
      TickAsksNobody(t[..k], now, ip);
      AskedAppend(TickRequests(t[..k], now), Asks(t[k], now), 0, ip);
      AskedOne(t[k], now, ip);
    }
  }

  lemma AskedOne(r: Row, now: nat, ip: Ip)
    ensures Asked(Asks(r, now), 0, ip) == if Asks(r, now) != [] && r.ip == ip then 1 else 0
  {
    assert Asks(r, now) != [] ==> Asks(r, now)[..0] == [];
  }

  /** A tick asks for a row's address once if the row is due, and otherwise not at all. */
  lemma {:induction false} TickAsksOnce(t: seq<Row>, now: nat, i: nat)
    requires i < |t| && t[i].ip != NO_IP && DistinctIps(t)
    ensures Asked(TickRequests(t, now), 0, t[i].ip) == if Asks(t[i], now) != [] then 1 else 0
  {
    hide Asks;
    var k := |t| - 1;
    AskedAppend(TickRequests(t[..k], now), Asks(t[k], now), 0, t[i].ip);
    AskedOne(t[k], now, t[i].ip);
    if i < k {
      TickAsksOnce(t[..k], now, i);
    } else {
      TickAsksNobody(t[..k], now, t[i].ip);
    }
  }

  lemma TickRow(s: State, now: nat, i: nat)
    requires Inv(s) && i < |s.table|
    ensures RowOk(Retried(s.table[i], now), s.requests + TickRequests(s.table, now))
  {
    var r, more := s.table[i], TickRequests(s.table, now);
    if Pending(r) {
      TickAsksOnce(s.table, now, i);
      AskedAppend(s.requests, more, r.since, r.ip);
    } else {
      RowKept(r, s.requests, more);
    }
  }

  lemma TickLookup(t: seq<Row>, now: nat, ip: Ip)
    requires ip != NO_IP && DistinctIps(t)
    ensures Lookup(TickTable(t, now), ip) == Lookup(t, ip)
  {
    var u := TickTable(t, now);
    var a, b := Find(t, ip, 0), Find(u, ip, 0);
    if a < |t| {
      assert u[a] == Retried(t[a], now);
    }
    if b < |u| {
      assert u[b] == Retried(t[b], now) && t[b].ip == ip;
    }
  }

  lemma TickDistinct(t: seq<Row>, now: nat)
    requires DistinctIps(t)
    ensures DistinctIps(TickTable(t, now))
  {
    var u := TickTable(t, now);
    forall i, j | 0 <= i < j < |u| && u[i].ip != NO_IP ensures u[i].ip != u[j].ip {
      assert u[i] == Retried(t[i], now) && u[j] == Retried(t[j], now);
    }
  }

  lemma TickPending(t: seq<Row>, now: nat)
    requires AnyPending(TickTable(t, now))
    ensures AnyPending(t)
  {
    var u := TickTable(t, now);
    var i :| 0 <= i < |u| && Pending(u[i]);
    assert u[i] == Retried(t[i], now) && Pending(t[i]);
  }

  lemma TickInv(s: State, now: nat)
    requires Inv(s)
    ensures Inv(Tick(s, now))
  {
    hide RowOk, Retried, Pending, AnyPending, DistinctIps;
    var r := Tick(s, now);
    forall i | 0 <= i < |r.table| ensures RowOk(r.table[i], r.requests) {
      TickRow(s, now, i);
    }
    TickDistinct(s.table, now);
    if AnyPending(r.table) {
      TickPending(s.table, now);
    }
  }

  lemma TickShows(s: State, now: nat)
    requires Inv(s) && Shows(s)
    ensures Shows(Tick(s, now))
  {
    hide Lookup, RowOk;
    var r := Tick(s, now);
    forall ip: Ip | ip != NO_IP ensures Lookup(r.table, ip) == LastReply(r.accepted, ip) {
      TickLookup(s.table, now, ip);
    }
  }

  lemma RequestKeeps(s: State, ip: Ip, now: nat)
    requires Inv(s) && Shows(s) && ip != NO_IP
    ensures Inv(Request(s, ip, now)) && Shows(Request(s, ip, now))
  {
    var k := Find(s.table, ip, 0);
    var f := FindFree(s.table, 0);
    if k < |s.table| {
      if s.table[k].resolved {
        AskKeeps(s, k, ip, now);
      }
    } else if f < |s.table| {
      AskKeeps(s, f, ip, now);
    }
  }

  lemma StepKeeps(s: State, e: Event)
    requires Inv(s) && Shows(s) && Proper(s, e)
    ensures Inv(Step(s, e)) && Shows(Step(s, e))
  {
    match e
    case AskFor(ip, at) => RequestKeeps(s, ip, at);
    case ReplyFrom(ip, mac) => ReplyKeeps(s, ip, mac);
    case Tock(at) =>
      TickInv(s, at);
      TickShows(s, at);
    case OtherTakes(h) =>
    case OtherReturns(i) =>
  }

  // ----------------------------------------------------------- the theorems

  datatype Run = Start(s: State) | Then(before: Run, e: Event)

  predicate Possible(r: Run)
    decreases r, 0
  {
    match r
    case Start(s) => Initial(s)
    case Then(b, e) => Possible(b) && Proper(End(b), e)
  }

  function End(r: Run): State
    requires Possible(r)
    decreases r, 1
  {
    match r
    case Start(s) => s
    case Then(b, e) => Step(End(b), e)
  }

  /** A table as the constructor leaves it. */
  predicate Initial(s: State) {
    && (forall i :: 0 <= i < |s.table| ==> s.table[i] == FREE)
    && s.timer == 0 && s.requests == [] && s.accepted == []
  }

  /** Over every run: at most one row per address; a free row is blank; a pending row has had
      exactly `count` requests, at most 5; a pending row has a live timer; and a lookup gives
      the last accepted reply. */
  lemma {:induction false} TableIsMap(r: Run)
    requires Possible(r)
    ensures Inv(End(r)) && Shows(End(r))
  {
    match r
    case Start(s) =>
      forall ip: Ip | ip != NO_IP ensures Lookup(s.table, ip) == None { }
    case Then(b, e) =>
      TableIsMap(b);
      StepKeeps(End(b), e);
  }

  /** An address once resolved stays resolved. */
  lemma ResolvedStays(r: Run, e: Event, ip: Ip)
    requires Possible(Then(r, e)) && ip != NO_IP && Lookup(End(r).table, ip).Some?
    ensures Lookup(End(Then(r, e)).table, ip).Some?
    ensures !(e.ReplyFrom? && e.ip == ip) ==>
              Lookup(End(Then(r, e)).table, ip) == Lookup(End(r).table, ip)
  {
    hide Inv, Lookup, Step, Possible;
    RepliesGrow(r, e);
    TableIsMap(r);
    TableIsMap(Then(r, e));
    if e.ReplyFrom? {
      LastReplyStep(End(r).accepted, e.ip, e.mac, ip);
    }
  }

  lemma RepliesGrow(r: Run, e: Event)
    requires Possible(Then(r, e))
    ensures Possible(r)
    ensures var x, y := End(r).accepted, End(Then(r, e)).accepted;
      y == x || (e.ReplyFrom? && y == x + [(e.ip, e.mac)])
  {
    StepReplies(End(r), e);
    hide Step;
  }

  lemma StepReplies(s: State, e: Event)
    requires Proper(s, e)
    ensures var x, y := s.accepted, Step(s, e).accepted; y == x || (e.ReplyFrom? && y == x + [(e.ip, e.mac)])
  {
    hide TickTable, TickRequests, AnyPending, Registered, Unregistered;
  }

  // --------------------------------------------------- the life of a lookup

  /** Not being looked up, with a row or a free one, and with a timer or one to be had. */
  predicate MayAsk(s: State, ip: Ip) {
    && (forall i :: 0 <= i < |s.table| && s.table[i].ip == ip ==> s.table[i].resolved)
    && (exists i :: 0 <= i < |s.table| && (s.table[i].ip == ip || s.table[i] == FREE))
    && (s.timer != 0 || exists j :: 0 <= j < |s.slots| && s.slots[j] == None)
  }

  /** A new request goes out exactly for such an address.  Otherwise nothing changes. */
  lemma RequestAsksIff(s: State, ip: Ip, now: nat)
    requires Inv(s) && ip != NO_IP
    ensures var u := Request(s, ip, now);
      && u.requests == (if MayAsk(s, ip) then s.requests + [ip] else s.requests)
      && (!MayAsk(s, ip) ==> u == s)
      && (MayAsk(s, ip) ==> exists k :: 0 <= k < |s.table| && AsksAt(s, u, k, ip, now))
  {
    RegisteredIff(s.slots, ARP);
    FreeRows(s);
    hide Registered, RowOk, DistinctIps, AnyPending;
    var k, f := Find(s.table, ip, 0), FindFree(s.table, 0);
    var u, row := Request(s, ip, now), if k < |s.table| then k else f;
    if row < |s.table| && u != s {
      assert AsksAt(s, u, row, ip, now);
    }
  }

  /** Free rows are blank, and no two rows have the same address. */
  lemma FreeRows(s: State)
    requires Inv(s)
    ensures forall i :: 0 <= i < |s.table| && !s.table[i].resolved && s.table[i].count == 0 ==> s.table[i] == FREE
    ensures forall i, j :: 0 <= i < j < |s.table| && s.table[i].ip == s.table[j].ip ==> s.table[i].ip == NO_IP
  {
  }

  /** Success is reported for a new request and for an address that is being looked up. */
  lemma RequestTakenIff(s: State, ip: Ip)
    requires Inv(s) && ip != NO_IP
    ensures RequestTaken(s, ip) <==>
              MayAsk(s, ip) || exists i :: 0 <= i < |s.table| && s.table[i].ip == ip && !s.table[i].resolved
  {
    RegisteredIff(s.slots, ARP);
    FreeRows(s);
    hide Registered, RowOk, DistinctIps, AnyPending;
    var k, f := Find(s.table, ip, 0), FindFree(s.table, 0);
  }

  /** Row k is the only one that differs: its address, its count and its time. */
  predicate AsksAt(s: State, u: State, k: nat, ip: Ip, now: nat)
    requires k < |s.table|
  {
    && (s.table[k].ip == ip || s.table[k] == FREE)
    && u.table == s.table[k := s.table[k].(ip := ip, count := 1, time := now, since := |s.requests|)]
    && u.timer != 0 && (s.timer != 0 ==> u.timer == s.timer && u.slots == s.slots)
  }

  /** A reply is taken exactly when some row has its sender's address. */
  lemma ReplyTakenIff(s: State, ip: Ip, mac: Mac)
    requires Inv(s)
    ensures var u := Reply(s, ip, mac);
      var asked := exists i :: 0 <= i < |s.table| && s.table[i].ip == ip;
      && (asked ==> Lookup(u.table, ip) == Some(mac)) && (!asked ==> u == s)
      && u.requests == s.requests && |u.table| == |s.table| && u.timer == s.timer && u.slots == s.slots
      && (forall i :: 0 <= i < |s.table| && s.table[i].ip != ip ==> u.table[i] == s.table[i])
      && (ip != NO_IP ==> forall i :: 0 <= i < |s.table| && s.table[i].ip == ip ==>
            u.table[i] == s.table[i].(mac := mac, resolved := true))
  {
    var k := Find(s.table, ip, 0);
    if k < |s.table| {
      SameSearch(s.table, Reply(s, ip, mac).table, ip);
    }
  }

  /** The timer is given back at the first tick that finds nothing to look up, and at no other. */
  lemma TimerReturnedIff(s: State, now: nat)
    requires Inv(s)
    ensures var u := Tick(s, now);
      if s.timer != 0 && forall i :: 0 <= i < |s.table| ==> s.table[i].resolved || s.table[i].count == 0
      then u.timer == 0 && u.slots == s.slots[s.timer - 1 := None]
      else u.timer == s.timer && u.slots == s.slots
  {
    hide RowOk, DistinctIps, TickTable, TickRequests;
    if AnyPending(s.table) {
      var i :| 0 <= i < |s.table| && Pending(s.table[i]);
    } else {
      forall i | 0 <= i < |s.table| ensures s.table[i].resolved || s.table[i].count == 0 {
        assert !Pending(s.table[i]);
      }
    }
  }

  /** Ticks at the given times. */
  function Ticks(s: State, times: seq<nat>): State
    requires s.timer <= |s.slots|
    decreases |times|
  {
    if times == [] then s else Ticks(Tick(s, times[0]), times[1..])
  }

  /** How many of the ticks come 250 ms or more after the last request. */
  function Lapses(time: nat, times: seq<nat>): (n: nat)
    ensures n <= |times|
    decreases |times|
  {
    if times == [] then 0
    else if Sub32(times[0], time) >= 250 then 1 + Lapses(times[0], times[1..])
    else Lapses(time, times[1..])
  }

  /** The requests for an address that u has made and s had not. */
  function AskedSince(s: State, u: State, ip: Ip): nat
    requires |s.requests| <= |u.requests|
  {
    Asked(u.requests, |s.requests|, ip)
  }

  lemma TickGrows(s: State, now: nat)
    requires Inv(s)
    ensures var u := Tick(s, now);
      Inv(u) && |u.table| == |s.table| && |s.requests| <= |u.requests| && u.requests[..|s.requests|] == s.requests
  {
    TickInv(s, now);
    hide RowOk, DistinctIps, AnyPending, Inv;
  }

  lemma {:induction false} TicksGrow(s: State, times: seq<nat>)
    requires Inv(s)
    ensures var u := Ticks(s, times);
      Inv(u) && |u.table| == |s.table| && |s.requests| <= |u.requests| && u.requests[..|s.requests|] == s.requests
    decreases |times|
  {
    hide RowOk, DistinctIps, AnyPending, Tick;
    if times != [] {
      var v, u := Tick(s, times[0]), Ticks(s, times);
      TickGrows(s, times[0]);
      TicksGrow(v, times[1..]);
      assert u.requests[..|s.requests|] == u.requests[..|v.requests|][..|s.requests|];
    }
  }

  lemma AskedBetween(s: State, v: State, u: State, ip: Ip)
    requires |s.requests| <= |v.requests| <= |u.requests| && u.requests[..|v.requests|] == v.requests
    ensures AskedSince(s, u, ip) == AskedSince(s, v, ip) + AskedSince(v, u, ip)
  {
    var rest := u.requests[|v.requests|..];
    assert u.requests == v.requests + rest;
    AskedAppend(v.requests, rest, |s.requests|, ip);
    AskedAppend(v.requests, rest, |v.requests|, ip);
  }

  /** Ticks alone fill no row and ask for no address that has none. */
  lemma {:induction false} FreeStays(s: State, i: nat, ip: Ip, times: seq<nat>)
    requires Inv(s) && i < |s.table| && s.table[i] == FREE
    requires ip != NO_IP && forall j :: 0 <= j < |s.table| ==> s.table[j].ip != ip
    ensures var u := Ticks(s, times);
      |u.table| == |s.table| && |s.requests| <= |u.requests| && u.table[i] == FREE && AskedSince(s, u, ip) == 0
    decreases |times|
  {
    hide RowOk, DistinctIps, AnyPending;
    TicksGrow(s, times);
    if times != [] {
      var v, u, more := Tick(s, times[0]), Ticks(s, times), TickRequests(s.table, times[0]);
      TickInv(s, times[0]);
      FreeStays(v, i, ip, times[1..]);
      TicksGrow(v, times[1..]);
      TickAsksNobody(s.table, times[0], ip);
      AskedAppend(s.requests, more, |s.requests|, ip);
      AskedBetween(s, v, u, ip);
    }
  }

  lemma PendingRow(s: State, i: nat)
    requires Inv(s) && i < |s.table| && !s.table[i].resolved && s.table[i].count > 0
    ensures s.table[i].ip != NO_IP && s.table[i].count <= 5
  {
  }

  /** What one tick does to a pending row. */
  lemma TickPendingRow(s: State, now: nat, i: nat)
    requires Inv(s) && i < |s.table| && !s.table[i].resolved && s.table[i].count > 0
    ensures var r, u := s.table[i], Tick(s, now);
      if Sub32(now, r.time) < 250 then u.table[i] == r && AskedSince(s, u, r.ip) == 0
      else if r.count < 5 then u.table[i] == r.(count := r.count + 1, time := now) && AskedSince(s, u, r.ip) == 1
      else u.table[i] == FREE && AskedSince(s, u, r.ip) == 0
  {
    var r, more := s.table[i], TickRequests(s.table, now);
    TickAsksOnce(s.table, now, i);
    AskedAppend(s.requests, more, |s.requests|, r.ip);
  }

  /** A lookup nobody answers: at every lapse of 250 ms it is asked for once more, up to five times
      in all, and at the lapse after the fifth the row is free again.  Ticks in between change
      nothing. */
  lemma {:induction false} LookupEndsIff(s: State, i: nat, times: seq<nat>)
    requires Inv(s) && i < |s.table| && !s.table[i].resolved && s.table[i].count > 0
    ensures var r, u, n := s.table[i], Ticks(s, times), Lapses(s.table[i].time, times);
      && |u.table| == |s.table| && |s.requests| <= |u.requests|
      && (if r.count + n <= 5
          then u.table[i].ip == r.ip && !u.table[i].resolved && u.table[i].count == r.count + n
               && AskedSince(s, u, r.ip) == n
          else u.table[i] == FREE && AskedSince(s, u, r.ip) == 5 - r.count)
    decreases |times|
  {
    hide Tick, RowOk, DistinctIps, AnyPending;
    PendingRow(s, i);
    TicksGrow(s, times);
    if times != [] {
      var r, v, u := s.table[i], Tick(s, times[0]), Ticks(s, times);
      TickGrows(s, times[0]);
      TickPendingRow(s, times[0], i);
      TicksGrow(v, times[1..]);
      AskedBetween(s, v, u, r.ip);
      if Sub32(times[0], r.time) >= 250 && r.count == 5 {
        NobodyLeft(s, times[0], i);
        FreeStays(v, i, r.ip, times[1..]);
      } else {
        LookupEndsIff(v, i, times[1..]);
      }
    }
  }

  lemma NobodyLeft(s: State, now: nat, i: nat)
    requires Inv(s) && i < |s.table| && s.table[i].ip != NO_IP && Tick(s, now).table[i] == FREE
    ensures var u := Tick(s, now); forall j :: 0 <= j < |u.table| ==> u.table[j].ip != s.table[i].ip
  {
    var t := s.table;
    assert forall j :: 0 <= j < |t| && j != i ==> t[j].ip != t[i].ip;
  }
}
