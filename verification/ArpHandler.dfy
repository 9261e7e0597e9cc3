/** ARPHandler as a class: loops over a routing table held in an array. */
module ArpHandler {
  import opened Words
  import opened Timers
  import opened Arp

  class ARPHandler {
    const routingTable: array<Row>
    const registry: TimerRegistry
    var timer: nat
    var requests: seq<Ip>
    ghost var accepted: seq<(Ip, Mac)>

    ghost predicate Valid()
      reads this, routingTable, registry, registry.slots
    {
      registry.Valid() && Inv(Value())
    }

    /** The handler's value in the model. */
    ghost function Value(): State
      reads this, routingTable, registry.slots
    {
      State(routingTable[..], timer, registry.slots[..], requests, accepted)
    }

    constructor (size: nat, registry: TimerRegistry)
      requires registry.Valid()
      ensures Valid() && Initial(Value()) && this.registry == registry && routingTable.Length == size
      ensures fresh(routingTable)
    {
      routingTable := new Row[size](_ => FREE);
      this.registry := registry;
      timer, requests, accepted := 0, [], [];
    }

    method GetMACAddress(ip: Ip) returns (mac: Option<Mac>)
      ensures mac == Lookup(routingTable[..], ip)
    {
      ghost var t := routingTable[..];
      for i := 0 to routingTable.Length
        invariant Find(t, ip, 0) == Find(t, ip, i)
      {
        if routingTable[i].ip == ip {
          return if routingTable[i].resolved then Some(routingTable[i].mac) else None;
        }
      }
      return None;
    }

    method HandleReply(ip: Ip, mac: Mac)
      modifies routingTable, this`accepted
      ensures Value() == Reply(old(Value()), ip, mac)
    {
      ghost var t := routingTable[..];
      for i := 0 to routingTable.Length
        invariant routingTable[..] == t && accepted == old(accepted)
        invariant Find(t, ip, 0) == Find(t, ip, i)
      {
        if routingTable[i].ip == ip {
          routingTable[i] := routingTable[i].(mac := mac, resolved := true);
          accepted := accepted + [(ip, mac)];
          return;
        }
      }
    }

    /** The two searches of requestMACAddress: the row to use, or `busy` when the address is
        being looked up already. */
    method FindRow(ip: Ip) returns (busy: bool, index: int)
      requires DistinctIps(routingTable[..]) && ip != NO_IP
      ensures var t := routingTable[..]; var k := Find(t, ip, 0); var f := FindFree(t, 0);
        && busy == (k < |t| && !t[k].resolved)
        && (!busy && k < |t| ==> index == k)
        && (k == |t| ==> index == if f == |t| then -1 else f)
    {
      ghost var t := routingTable[..];
      busy, index := false, -1;
      for i := 0 to routingTable.Length
        invariant index == -1 ==> Find(t, ip, 0) == Find(t, ip, i)
        invariant index != -1 ==> 0 <= index < i && Find(t, ip, 0) == index && t[index].resolved
      {
        if routingTable[i].ip == ip {
          if !routingTable[i].resolved {
            return true, index;
          }
          index := i;
        }
      }
      if index == -1 {
        for i := 0 to routingTable.Length
          invariant FindFree(t, 0) == FindFree(t, i)
        {
          if !routingTable[i].resolved && AttemptCount(routingTable[i]) == 0 {
            return false, i;
          }
        }
      }
    }

    method RequestMACAddress(ip: Ip, now: nat) returns (ok: bool)
      requires Valid() && ip != NO_IP
      modifies this`timer, this`requests, routingTable, registry, registry.slots
      ensures registry.Valid() && Value() == Request(old(Value()), ip, now)
      ensures ok == RequestTaken(old(Value()), ip)
    {
      var busy, index := FindRow(ip);
      if busy {
        return true;
      }
      if index == -1 {
        return false;
      }
      ok := UseRow(index, ip, now);
    }

    /** The rest of requestMACAddress: the timer, the row and the request. */
    method UseRow(index: nat, ip: Ip, now: nat) returns (ok: bool)
      requires registry.Valid() && index < routingTable.Length && timer <= registry.slots.Length
      modifies this`timer, this`requests, routingTable, registry, registry.slots
      ensures registry.Valid() && Value() == Ask(old(Value()), index, ip, now)
      ensures ok == (old(timer) != 0 || Registered(old(registry.slots[..]), ARP).1 != 0)
    {
      if timer == 0 {
        timer := registry.RegisterTimer(ARP);
        if timer == 0 {
          return false;
        }
      }
      ghost var t := routingTable[..];
      routingTable[index] := routingTable[index].(count := 1, time := now, ip := ip, since := |requests|);
      requests := requests + [ip];
      assert routingTable[..] == t[index := routingTable[index]];
      return true;
    }

    /** handleTimer's work on one row. */
    method RetryRow(i: nat, now: nat) returns (pending: bool)
      requires i < routingTable.Length
      modifies this`requests, routingTable
      ensures pending == Pending(old(routingTable[i]))
      ensures routingTable[..] == old(routingTable[..])[i := Retried(old(routingTable[i]), now)]
      ensures requests == old(requests) + Asks(old(routingTable[i]), now)
    {
      var row := routingTable[i];
      pending := AttemptCount(row) != 0 && !row.resolved;
      if pending && Sub32(now, row.time) >= 250 {
        if AttemptCount(row) >= 5 {
          routingTable[i] := FREE;
        } else {
          routingTable[i] := row.(count := AttemptCount(row) + 1, time := now);
          requests := requests + [row.ip];
        }
      }
    }

    /** The loop of handleTimer; counts the lookups that were pending. */
    method RetryRows(now: nat) returns (lookups: nat)
      modifies this`requests, routingTable
      ensures routingTable[..] == TickTable(old(routingTable[..]), now)
      ensures requests == old(requests) + TickRequests(old(routingTable[..]), now)
      ensures lookups == 0 <==> !AnyPending(old(routingTable[..]))
    {
      hide *;
      ghost var t := routingTable[..];
      lookups := 0;
      ResumeEnds(t, now);
      for i := 0 to routingTable.Length
        invariant routingTable[..] == Resume(t, i, now)
        invariant requests == old(requests) + TickRequests(t[..i], now)
        invariant lookups == 0 <==> !AnyPending(t[..i])
      {
        ResumeStep(t, i, now);
        var pending := RetryRow(i, now);
        lookups := lookups + if pending then 1 else 0;
      }
    }

    method HandleTimer(now: nat)
      requires Valid()
      modifies this`timer, this`requests, routingTable, registry, registry.slots
      ensures registry.Valid() && Value() == Tick(old(Value()), now)
    {
      hide TickTable, TickRequests, AnyPending, RowOk, DistinctIps;
      var lookups := RetryRows(now);
      if lookups == 0 && timer != 0 {
        registry.UnregisterTimer(timer);
        timer := 0;
      }
    }
  }

  /** The table when the loop of handleTimer has done its first i rows. */
  ghost function Resume(t: seq<Row>, i: nat, now: nat): seq<Row>
    requires i <= |t|
  {
    TickTable(t[..i], now) + t[i..]
  }

  lemma ResumeEnds(t: seq<Row>, now: nat)
    ensures Resume(t, 0, now) == t && Resume(t, |t|, now) == TickTable(t, now)
    ensures TickRequests(t[..0], now) == [] && t[..|t|] == t && !AnyPending(t[..0])
  {
    hide Retried;
    assert t[..0] == [] && t[..|t|] == t;
  }

  lemma ResumeStep(t: seq<Row>, i: nat, now: nat)
    requires i < |t|
    ensures Resume(t, i, now)[i] == t[i]
    ensures Resume(t, i + 1, now) == Resume(t, i, now)[i := Retried(t[i], now)]
    ensures TickRequests(t[..i + 1], now) == TickRequests(t[..i], now) + Asks(t[i], now)
    ensures AnyPending(t[..i + 1]) <==> AnyPending(t[..i]) || Pending(t[i])
  {
    hide Pending, Retried, Asks;
    assert t[..i + 1][..i] == t[..i];
    PendingStep(t, i);
  }

  lemma PendingStep(t: seq<Row>, i: nat)
    requires i < |t|
    ensures AnyPending(t[..i + 1]) <==> AnyPending(t[..i]) || Pending(t[i])
  {
    hide Pending;
    if AnyPending(t[..i]) {
      var j :| 0 <= j < i && Pending(t[..i][j]);
      assert Pending(t[..i + 1][j]);
    }
    if Pending(t[i]) {
      assert Pending(t[..i + 1][i]);
    }
  }
}
