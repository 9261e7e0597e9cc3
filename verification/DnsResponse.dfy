/** The walker of DNSHandler::handleDatagram: it skips the questions of a response and
    takes the first answer that is four bytes long. */
module DnsResponse {
  import opened Words
  import opened Dns

  /** The fields of a cache entry the walker writes. */
  datatype Entry = Entry(ip: seq<byte>, ttl: nat)

  // --------------------------------------------------------------- the walker

  /** The offset is a 16-bit number. */
  function SkipQuestions(p: seq<byte>, at: nat, n: nat): Option<nat>
    decreases n
  {
    if n == 0 then Some(at)
    else
      match SkipLabels(p, at)
      case None => None
      case Some(end) => SkipQuestions(p, Add16(end, 4), n - 1)
  }

  /** An answer's name: labels up to a zero, or up to a pointer of two bytes. */
  function SkipName(p: seq<byte>, at: nat): Option<nat>
    decreases |p| - at
  {
    if at >= |p| then None
    else if p[at] == 0 then Some(at + 1)
    else if p[at] >= 192 then Some(at + 2)
    else SkipName(p, at + 1 + p[at])
  }

  /** Four bytes copied one by one until one is missing. */
  function StoreIp(p: seq<byte>, at: nat, ip: seq<byte>): seq<byte>
    requires |ip| == 4
  {
    if at + 4 <= |p| then p[at..at + 4] else if at < |p| then p[at..] + ip[|p| - at..] else ip
  }

  function WalkAnswers(p: seq<byte>, at: nat, n: nat, e: Entry): Entry
    requires |e.ip| == 4
    decreases n
  {
    if n == 0 then e
    else
      match SkipName(p, at)
      case None => e
      case Some(end) =>
        var ttlAt := Add16(end, 4);
        if ttlAt + 4 > |p| then e
        else
          var t := e.(ttl := Quad(p, ttlAt));
          var lengthAt := Add16(ttlAt, 4);
          if lengthAt + 2 > |p| then t
          else
            var rdlength, dataAt := Word(p, lengthAt), Add16(lengthAt, 2);
            if rdlength == 4 then t.(ip := StoreIp(p, dataAt, t.ip))
            else WalkAnswers(p, Add16(dataAt, rdlength), n - 1, t)
  }

  function Walk(p: seq<byte>, questions: nat, answers: nat, e: Entry): Entry
    requires |e.ip| == 4
  {
    match SkipQuestions(p, DNS_HEADER, questions)
    case None => e
    case Some(at) => WalkAnswers(p, at, answers, e)
  }

  // ---------------------------------------------------- well-formed responses

  datatype Name = Plain(ls: seq<seq<byte>>) | Compressed(ls: seq<seq<byte>>, hi: byte, lo: byte)

  datatype Asked = Asked(ls: seq<seq<byte>>, kind: seq<byte>)

  datatype Answer = Answer(name: Name, kind: seq<byte>, ttl: nat, rdata: seq<byte>)

  predicate GoodName(n: Name) { Labels(n.ls) && (n.Compressed? ==> n.hi >= 192) }

  predicate GoodAsked(q: Asked) { Labels(q.ls) && |q.kind| == 4 }

  predicate GoodAnswer(a: Answer) {
    GoodName(a.name) && |a.kind| == 4 && a.ttl < MOD32 && |a.rdata| < MOD16
  }

  function NameBytes(n: Name): seq<byte>
    requires GoodName(n)
  {
    Wired(n.ls) + if n.Plain? then [0] else [n.hi, n.lo]
  }

  function AskedBytes(q: Asked): seq<byte>
    requires GoodAsked(q)
  {
    Wired(q.ls) + [0] + q.kind
  }

  /** What precedes the data of an answer (section 4.1.3 of RFC 1035). */
  function AnswerHead(a: Answer): seq<byte>
    requires GoodAnswer(a)
  {
    NameBytes(a.name) + a.kind + Net32(a.ttl) + Net16(|a.rdata|)
  }

  function Questions(qs: seq<Asked>): seq<byte>
    requires forall i :: 0 <= i < |qs| ==> GoodAsked(qs[i])
  {
    if qs == [] then [] else AskedBytes(qs[0]) + Questions(qs[1..])
  }

  function Answers(rs: seq<Answer>): seq<byte>
    requires forall i :: 0 <= i < |rs| ==> GoodAnswer(rs[i])
  {
    if rs == [] then [] else AnswerHead(rs[0]) + rs[0].rdata + Answers(rs[1..])
  }

  lemma AskedSkipped(p: seq<byte>, at: nat, q: Asked)
    requires GoodAsked(q) && Lies(p, at, AskedBytes(q))
    ensures SkipLabels(p, at) == Some(at + |AskedBytes(q)| - 4)
  {
    LiesSplit(p, at, Wired(q.ls) + [0], q.kind);
    LabelsComeBack(p, at, q.ls);
  }

  lemma {:induction false} QuestionsSkipped(p: seq<byte>, at: nat, qs: seq<Asked>)
    requires |p| < MOD16 && (forall i :: 0 <= i < |qs| ==> GoodAsked(qs[i])) && Lies(p, at, Questions(qs))
    ensures SkipQuestions(p, at, |qs|) == Some(at + |Questions(qs)|)
    decreases |qs|
  {
    hide AskedBytes, SkipLabels;
    if qs != [] {
      LiesSplit(p, at, AskedBytes(qs[0]), Questions(qs[1..]));
      AskedSkipped(p, at, qs[0]);
      QuestionsSkipped(p, at + |AskedBytes(qs[0])|, qs[1..]);
    }
  }

  lemma {:induction false} NameSkipped(p: seq<byte>, at: nat, n: Name)
    requires GoodName(n) && Lies(p, at, NameBytes(n))
    ensures SkipName(p, at) == Some(at + |NameBytes(n)|)
    decreases |n.ls|
  {
    if n.ls == [] {
      assert NameBytes(n) == if n.Plain? then [0] else [n.hi, n.lo];
      assert p[at] == p[at..at + |NameBytes(n)|][0];
    } else {
      hide NameBytes;
      var m := n.(ls := n.ls[1..]);
      var l := Framed(n.ls[0]);
      NameFront(n);
      LiesSplit(p, at, l, NameBytes(m));
      assert p[at] == p[at..at + |l|][0];
      NameSkipped(p, at + |l|, m);
    }
  }

  lemma NameFront(n: Name)
    requires GoodName(n) && n.ls != []
    ensures NameBytes(n) == Framed(n.ls[0]) + NameBytes(n.(ls := n.ls[1..]))
  {
    WiredFront(n.ls);
  }

  lemma WordsLie(p: seq<byte>, at: nat, ttl: nat, len: nat)
    requires ttl < MOD32 && len < MOD16 && Lies(p, at, Net32(ttl) + Net16(len))
    ensures Quad(p, at) == ttl && Word(p, at + 4) == len
  {
    var s := p[at..at + 6];
    assert s == Net32(ttl) + Net16(len);
    assert p[at] == s[0] && p[at + 1] == s[1] && p[at + 2] == s[2];
    assert p[at + 3] == s[3] && p[at + 4] == s[4] && p[at + 5] == s[5];
  }

  /** Where the walker finds the parts of an answer. */
  lemma AnswerRead(p: seq<byte>, at: nat, a: Answer)
    requires GoodAnswer(a) && Lies(p, at, AnswerHead(a) + a.rdata)
    ensures var end := at + |NameBytes(a.name)|;
      && SkipName(p, at) == Some(end)
      && end + 10 + |a.rdata| <= |p|
      && Quad(p, end + 4) == a.ttl && Word(p, end + 8) == |a.rdata|
      && p[end + 10..end + 10 + |a.rdata|] == a.rdata
  {
    hide NameBytes, SkipName;
    var n, w := NameBytes(a.name), Net32(a.ttl) + Net16(|a.rdata|);
    assert AnswerHead(a) == n + a.kind + w;
    LiesSplit(p, at, AnswerHead(a), a.rdata);
    LiesSplit(p, at, n + a.kind, w);
    LiesSplit(p, at, n, a.kind);
    NameSkipped(p, at, a.name);
    WordsLie(p, at + |n| + 4, a.ttl, |a.rdata|);
  }

  /** The entry after the answers: the first one with four bytes of data wins; before it,
      each answer leaves its time to live. */
  function Chosen(rs: seq<Answer>, e: Entry): Entry {
    if rs == [] then e
    else if |rs[0].rdata| == 4 then Entry(rs[0].rdata, rs[0].ttl)
    else Chosen(rs[1..], e.(ttl := rs[0].ttl))
  }

  lemma AnswerStep(p: seq<byte>, at: nat, n: nat, a: Answer, e: Entry)
    requires |p| < MOD16 && |e.ip| == 4 && GoodAnswer(a) && Lies(p, at, AnswerHead(a) + a.rdata)
    ensures WalkAnswers(p, at, n + 1, e) ==
      if |a.rdata| == 4 then Entry(a.rdata, a.ttl)
      else WalkAnswers(p, at + |AnswerHead(a)| + |a.rdata|, n, e.(ttl := a.ttl))
  {
    hide AnswerHead, SkipName, Quad, Word, NameBytes, Lies;
    AnswerRead(p, at, a);
    HeadLength(a);
    var end := at + |NameBytes(a.name)|;
    assert Add16(end, 4) == end + 4 && Add16(end + 4, 4) == end + 8 && Add16(end + 8, 2) == end + 10;
    assert Add16(end + 10, |a.rdata|) == end + 10 + |a.rdata|;
  }

  lemma {:induction false} AnswersWalked(p: seq<byte>, at: nat, rs: seq<Answer>, e: Entry)
    requires |p| < MOD16 && |e.ip| == 4
    requires (forall i :: 0 <= i < |rs| ==> GoodAnswer(rs[i])) && Lies(p, at, Answers(rs))
    ensures WalkAnswers(p, at, |rs|, e) == Chosen(rs, e)
    decreases |rs|
  {
    hide AnswerHead, WalkAnswers;
    if rs == [] {
      NoAnswers(p, at, e);
    } else {
      var a := rs[0];
      LiesSplit(p, at, AnswerHead(a) + a.rdata, Answers(rs[1..]));
      AnswerStep(p, at, |rs| - 1, a, e);
      AnswersWalked(p, at + |AnswerHead(a)| + |a.rdata|, rs[1..], e.(ttl := a.ttl));
    }
  }

  lemma NoAnswers(p: seq<byte>, at: nat, e: Entry)
    requires |e.ip| == 4
    ensures WalkAnswers(p, at, 0, e) == e
  {
  }

  lemma HeadLength(a: Answer)
    requires GoodAnswer(a)
    ensures |AnswerHead(a)| == |NameBytes(a.name)| + 10
  {
  }

  /** For every well-formed response the walker stores the address and the time to live of
      the first answer whose RDLENGTH is 4. */
  lemma ResponseWalked(header: seq<byte>, qs: seq<Asked>, rs: seq<Answer>, rest: seq<byte>, e: Entry)
    requires |header| == DNS_HEADER && |e.ip| == 4
    requires (forall i :: 0 <= i < |qs| ==> GoodAsked(qs[i])) && (forall i :: 0 <= i < |rs| ==> GoodAnswer(rs[i]))
    requires |header + Questions(qs) + Answers(rs) + rest| < MOD16
    ensures Walk(header + Questions(qs) + Answers(rs) + rest, |qs|, |rs|, e) == Chosen(rs, e)
  {
    hide Questions, Answers, Lies, SkipQuestions, WalkAnswers;
    var q, a := Questions(qs), Answers(rs);
    var p := header + q + a + rest;
    assert p == header + q + (a + rest);
    LiesIn(header, q, a + rest);
    LiesIn(header + q, a, rest);
    QuestionsSkipped(p, DNS_HEADER, qs);
    AnswersWalked(p, DNS_HEADER + |q|, rs, e);
  }

  lemma {:induction false} ChosenIsFirst(rs: seq<Answer>, e: Entry, k: nat)
    requires k < |rs| && |rs[k].rdata| == 4 && forall i :: 0 <= i < k ==> |rs[i].rdata| != 4
    ensures Chosen(rs, e) == Entry(rs[k].rdata, rs[k].ttl)
  {
    if k > 0 {
      ChosenIsFirst(rs[1..], e.(ttl := rs[0].ttl), k - 1);
    }
  }

  // --------------------------------------------------------------- the loops

  /** The loop over one question's name.  With at most 65280 bytes the 16-bit offset cannot
      wrap inside a name, so the loop ends. */
  method WalkLabels(p: seq<byte>, from: nat) returns (ok: bool, at: nat)
    requires |p| <= 65280
    ensures SkipLabels(p, from) == if ok then Some(at) else None
    ensures ok ==> at < MOD16
  {
    at := from;
    if at >= |p| {
      return false, at;
    }
    var size := p[at];
    at := Add16(at, 1);
    while size > 0
      invariant 1 <= at <= |p| && size == p[at - 1]
      invariant SkipLabels(p, from) == SkipLabels(p, at - 1)
      decreases |p| - at
    {
      at := Add16(at, size);
      if at >= |p| {
        return false, at;
      }
      size := p[at];
      at := Add16(at, 1);
    }
    ok := true;
  }

  method WalkQuestions(p: seq<byte>, n: nat) returns (ok: bool, at: nat)
    requires |p| <= 65280
    ensures SkipQuestions(p, DNS_HEADER, n) == if ok then Some(at) else None
    ensures ok ==> at < MOD16
  {
    hide SkipLabels;
    at := DNS_HEADER;
    for i := 0 to n
      invariant at < MOD16
      invariant SkipQuestions(p, DNS_HEADER, n) == SkipQuestions(p, at, n - i)
    {
      ok, at := WalkLabels(p, at);
      if !ok {
        return;
      }
      at := Add16(at, 4);
    }
    ok := true;
  }

  /** The loop over one answer's name. */
  method WalkName(p: seq<byte>, from: nat) returns (ok: bool, at: nat)
    requires |p| <= 65280
    ensures SkipName(p, from) == if ok then Some(at) else None
    ensures ok ==> at < MOD16
  {
    at := from;
    if at >= |p| {
      return false, at;
    }
    var size := p[at];
    at := Add16(at, 1);
    while size > 0
      invariant 1 <= at <= |p| && size == p[at - 1]
      invariant SkipName(p, from) == SkipName(p, at - 1)
      decreases |p| - at
    {
      if size / 64 == 3 {
        at := Add16(at, 1);
        return true, at;
      }
      at := Add16(at, size);
      if at >= |p| {
        return false, at;
      }
      size := p[at];
      at := Add16(at, 1);
    }
    ok := true;
  }

  method CopyIp(p: seq<byte>, at: nat, was: seq<byte>) returns (ip: seq<byte>)
    requires |was| == 4
    ensures |ip| == 4 && ip == StoreIp(p, at, was)
  {
    ip := was;
    for i := 0 to 4
      invariant |ip| == 4 && (i == 0 || at + i <= |p|)
      invariant i > 0 ==> ip == p[at..at + i] + was[i..]
      invariant i == 0 ==> ip == was
    {
      if at + i >= |p| {
        return;
      }
      ip := ip[i := p[at + i]];
    }
  }

  /** The body of the loop over the answers: what it stores and whether it goes on. */
  method ReadAnswer(p: seq<byte>, from: nat, e: Entry, ghost n: nat) returns (more: bool, at: nat, r: Entry)
    requires |p| <= 65280 && |e.ip| == 4
    ensures |r.ip| == 4 && (more ==> at < MOD16)
    ensures WalkAnswers(p, from, n + 1, e) == if more then WalkAnswers(p, at, n, r) else r
  {
    hide SkipName, Word, Quad, StoreIp;
    r := e;
    more, at := WalkName(p, from);
    if !more {
      return;
    }
    at := Add16(at, 4);
    if at + 4 > |p| {
      return false, at, r;
    }
    r := r.(ttl := Quad(p, at));
    at := Add16(at, 4);
    if at + 2 > |p| {
      return false, at, r;
    }
    var rdlength := Word(p, at);
    at := Add16(at, 2);
    if rdlength == 4 {
      var ip := CopyIp(p, at, r.ip);
      return false, at, r.(ip := ip);
    }
    at := Add16(at, rdlength);
  }

  /** handleDatagram from the questions on, for a response without an error code. */
  method WalkResponse(p: seq<byte>, qdcount: nat, ancount: nat, e: Entry) returns (r: Entry)
    requires |p| <= 65280 && |e.ip| == 4
    ensures r == Walk(p, qdcount, ancount, e)
  {
    hide SkipQuestions, WalkAnswers;
    r := e;
    var ok: bool, at: nat;
    ok, at := WalkQuestions(p, qdcount);
    if !ok {
      return;
    }
    ghost var start := at;
    for i := 0 to ancount
      invariant |r.ip| == 4 && at < MOD16
      invariant WalkAnswers(p, start, ancount, e) == WalkAnswers(p, at, ancount - i, r)
    {
      ok, at, r := ReadAnswer(p, at, r, ancount - i - 1);
      if !ok {
        return;
      }
    }
    NoAnswers(p, at, r);
  }
}
