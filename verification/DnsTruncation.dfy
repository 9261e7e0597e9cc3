/** The DNS walker on packets that are not well formed: responses cut short anywhere, and names made
    of arbitrary bytes. */
module DnsTruncation {
  import opened Words
  import opened Dns
  import opened DnsResponse

  // --------------------------------------------------- arbitrary names

  /** Length bytes up to `most` at `at` lead over their labels to `end`. */
  predicate Hops(p: seq<byte>, at: nat, lens: seq<nat>, end: nat, most: nat)
    decreases |lens|
  {
    if lens == [] then at == end
    else at < |p| && 1 <= lens[0] <= most && p[at] == lens[0] && Hops(p, at + 1 + lens[0], lens[1..], end, most)
  }

  /** The lengths the walker finds before it stops. */
  function Lens(p: seq<byte>, at: nat, most: nat): (lens: seq<nat>)
    decreases |p| - at
  {
    if at >= |p| || p[at] == 0 || p[at] > most then []
    else [p[at]] + Lens(p, at + 1 + p[at], most)
  }

  function Stop(p: seq<byte>, at: nat, most: nat): (end: nat)
    decreases |p| - at
  {
    if at >= |p| || p[at] == 0 || p[at] > most then at else Stop(p, at + 1 + p[at], most)
  }

  lemma {:induction false} HopsFound(p: seq<byte>, at: nat, most: nat)
    ensures Hops(p, at, Lens(p, at, most), Stop(p, at, most), most)
    decreases |p| - at
  {
    if at < |p| && 1 <= p[at] <= most {
      HopsFound(p, at + 1 + p[at], most);
    }
  }

  lemma {:induction false} NameHops(p: seq<byte>, at: nat, lens: seq<nat>, end: nat)
    requires Hops(p, at, lens, end, 191)
    ensures SkipName(p, at) == SkipName(p, end)
    decreases |lens|
  {
    if lens != [] {
      NameHops(p, at + 1 + lens[0], lens[1..], end);
    }
  }

  lemma {:induction false} LabelHops(p: seq<byte>, at: nat, lens: seq<nat>, end: nat)
    requires Hops(p, at, lens, end, 255)
    ensures SkipLabels(p, at) == SkipLabels(p, end)
    decreases |lens|
  {
    if lens != [] {
      LabelHops(p, at + 1 + lens[0], lens[1..], end);
    }
  }

  lemma {:induction false} StopsAt(p: seq<byte>, at: nat, most: nat)
    ensures var end := Stop(p, at, most); end >= |p| || p[end] == 0 || p[end] > most
    decreases |p| - at
  {
    if at < |p| && 1 <= p[at] <= most {
      StopsAt(p, at + 1 + p[at], most);
    }
  }

  /** Labels of at most 191 bytes lead to a zero or to a pointer, and the name ends at x behind that. */
  predicate NamePath(p: seq<byte>, at: nat, lens: seq<nat>, end: nat, x: nat) {
    && Hops(p, at, lens, end, 191)
    && end < |p| && ((p[end] == 0 && x == end + 1) || (p[end] >= 192 && x == end + 2))
  }

  /** Labels of any length lead to a zero, and the name ends at x behind that. */
  predicate LabelPath(p: seq<byte>, at: nat, lens: seq<nat>, end: nat, x: nat) {
    Hops(p, at, lens, end, 255) && end < |p| && p[end] == 0 && x == end + 1
  }

  /** In any packet the walker ends the name of an answer at x exactly when there is such a path. */
  lemma SkipNameIff(p: seq<byte>, at: nat, x: nat)
    ensures SkipName(p, at) == Some(x) <==> exists lens: seq<nat>, end: nat :: NamePath(p, at, lens, end, x)
  {
    HopsFound(p, at, 191);
    StopsAt(p, at, 191);
    var end := Stop(p, at, 191);
    NameHops(p, at, Lens(p, at, 191), end);
    if SkipName(p, at) == Some(x) {
      assert NamePath(p, at, Lens(p, at, 191), end, x);
    }
    if l: seq<nat>, e: nat :| NamePath(p, at, l, e, x) {
      NameHops(p, at, l, e);
    }
  }

  /** The same for the name of a question. */
  lemma SkipLabelsIff(p: seq<byte>, at: nat, x: nat)
    ensures SkipLabels(p, at) == Some(x) <==> exists lens: seq<nat>, end: nat :: LabelPath(p, at, lens, end, x)
  {
    HopsFound(p, at, 255);
    StopsAt(p, at, 255);
    var end := Stop(p, at, 255);
    LabelHops(p, at, Lens(p, at, 255), end);
    if SkipLabels(p, at) == Some(x) {
      assert LabelPath(p, at, Lens(p, at, 255), end, x);
    }
    if l: seq<nat>, e: nat :| LabelPath(p, at, l, e, x) {
      LabelHops(p, at, l, e);
    }
  }

  // ------------------------------------------------------ cut short anywhere

  lemma LiesFront(p: seq<byte>, at: nat, x: seq<byte>, y: seq<byte>)
    requires Lies(p, at, x + y) && x != []
    ensures p[at] == x[0] && Lies(p, at + |x|, y)
  {
    LiesSplit(p, at, x, y);
    assert p[at] == p[at..at + |x|][0];
  }

  lemma {:induction false} LabelsCut(p: seq<byte>, at: nat, ls: seq<seq<byte>>, c: nat)
    requires Labels(ls) && Lies(p, at, Wired(ls) + [0]) && c <= |p|
    ensures var end := at + |Wired(ls)| + 1; SkipLabels(p[..c], at) == if c >= end then Some(end) else None
    decreases |ls|
  {
    if ls == [] {
      assert p[at] == p[at..at + 1][0];
    } else {
      hide Wired;
      WiredFront(ls);
      var l := Framed(ls[0]);
      assert Wired(ls) + [0] == l + (Wired(ls[1..]) + [0]);
      LiesFront(p, at, l, Wired(ls[1..]) + [0]);
      LabelsCut(p, at + |l|, ls[1..], c);
    }
  }

  /** The questions of a packet cut at c: their end, or none. */
  lemma {:induction false} QuestionsCut(p: seq<byte>, at: nat, qs: seq<Asked>, c: nat)
    requires c <= |p| < MOD16 && (forall i :: 0 <= i < |qs| ==> GoodAsked(qs[i])) && Lies(p, at, Questions(qs))
    ensures var end, r := at + |Questions(qs)|, SkipQuestions(p[..c], at, |qs|);
      (r == None || r == Some(end)) && (c >= end ==> r == Some(end))
    decreases |qs|
  {
    hide SkipLabels, Wired;
    if qs != [] {
      var q := qs[0];
      LiesSplit(p, at, AskedBytes(q), Questions(qs[1..]));
      LiesSplit(p, at, Wired(q.ls) + [0], q.kind);
      LabelsCut(p, at, q.ls, c);
      QuestionsCut(p, at + |AskedBytes(q)|, qs[1..], c);
    }
  }

  lemma {:induction false} NameCut(p: seq<byte>, at: nat, n: Name, c: nat)
    requires GoodName(n) && Lies(p, at, NameBytes(n)) && c <= |p|
    ensures var end, r := at + |NameBytes(n)|, SkipName(p[..c], at);
      (r == None || r == Some(end)) && (c >= end ==> r == Some(end))
    decreases |n.ls|
  {
    if n.ls == [] {
      assert NameBytes(n) == if n.Plain? then [0] else [n.hi, n.lo];
      assert p[at] == p[at..at + |NameBytes(n)|][0];
    } else {
      hide NameBytes;
      var m := n.(ls := n.ls[1..]);
      var l := Framed(n.ls[0]);
      NameFront(n);
      LiesFront(p, at, l, NameBytes(m));
      NameCut(p, at + |l|, m, c);
    }
  }

  /** The bytes of an answer before its data: name, type, class, time to live and data length. */
  function AnswerRoom(a: Answer): nat
    requires GoodAnswer(a)
  {
    |NameBytes(a.name)| + 10
  }

  /** What is stored when only `room` bytes of the answers have arrived: whole answers as in a whole
      packet; the time to live of the last one once that has arrived; and of an address as many bytes as
      there are, over those of the entry. */
  function Cut(rs: seq<Answer>, room: nat, e: Entry): (r: Entry)
    requires |e.ip| == 4 && forall i :: 0 <= i < |rs| ==> GoodAnswer(rs[i])
    ensures |r.ip| == 4
  {
    if rs == [] then e
    else if room < AnswerRoom(rs[0]) - 2 then e
    else
      var a, t, head := rs[0], e.(ttl := rs[0].ttl), AnswerRoom(rs[0]);
      if room < head then t
      else if |a.rdata| == 4 then
        var k := if room - head < 4 then room - head else 4;
        t.(ip := a.rdata[..k] + e.ip[k..])
      else if room < head + |a.rdata| then t
      else Cut(rs[1..], room - head - |a.rdata|, t)
  }

  function Room(at: nat, c: nat): nat { if c < at then 0 else c - at }

  /** The bytes that are there, over those that were. */
  lemma IpCut(p: seq<byte>, at: nat, d: seq<byte>, ip: seq<byte>, c: nat)
    requires Lies(p, at, d) && |d| == |ip| == 4 && at <= c <= |p|
    ensures var k := if c - at < 4 then c - at else 4; StoreIp(p[..c], at, ip) == d[..k] + ip[k..]
  {
    var k := if c - at < 4 then c - at else 4;
    assert p[..c][at..at + k] == p[at..at + 4][..k] == d[..k];
    if k < 4 {
      assert p[..c][at..] == p[..c][at..at + k];
    }
  }

  /** Cutting a packet leaves what lies before the cut. */
  lemma FieldsCut(p: seq<byte>, at: nat, c: nat)
    requires c <= |p|
    ensures at + 4 <= c ==> Quad(p[..c], at) == Quad(p, at)
    ensures at + 2 <= c ==> Word(p[..c], at) == Word(p, at)
  {
  }

  lemma NothingLeft(p: seq<byte>, at: nat, n: nat, e: Entry)
    requires at >= |p| && |e.ip| == 4
    ensures WalkAnswers(p, at, n, e) == e
  {
  }

  /** One answer of a packet cut at c. */
  lemma AnswerCut(p: seq<byte>, at: nat, n: nat, a: Answer, c: nat, e: Entry)
    requires c <= |p| < MOD16 && |e.ip| == 4 && GoodAnswer(a) && Lies(p, at, AnswerHead(a) + a.rdata)
    ensures var room, t, head := Room(at, c), e.(ttl := a.ttl), |NameBytes(a.name)| + 10;
      WalkAnswers(p[..c], at, n + 1, e) ==
        if room < head - 2 then e
        else if room < head then t
        else if |a.rdata| == 4 then t.(ip := StoreIp(p[..c], at + head, e.ip))
        else WalkAnswers(p[..c], at + head + |a.rdata|, n, t)
  {
    hide AnswerHead, SkipName, Quad, Word, NameBytes, Lies, StoreIp;
    var q, end := p[..c], at + |NameBytes(a.name)|;
    NamePart(p, at, a);
    NameCut(p, at, a.name, c);
    AnswerRead(p, at, a);
    FieldsCut(p, end + 4, c);
    FieldsCut(p, end + 8, c);
    assert Add16(end, 4) == end + 4 && Add16(end + 4, 4) == end + 8 && Add16(end + 8, 2) == end + 10;
    assert Add16(end + 10, |a.rdata|) == end + 10 + |a.rdata|;
  }

  lemma NamePart(p: seq<byte>, at: nat, a: Answer)
    requires GoodAnswer(a) && Lies(p, at, AnswerHead(a) + a.rdata)
    ensures Lies(p, at, NameBytes(a.name)) && Lies(p, at + |NameBytes(a.name)| + 10, a.rdata)
  {
    hide NameBytes, Lies;
    var w := Net32(a.ttl) + Net16(|a.rdata|);
    LiesSplit(p, at, AnswerHead(a), a.rdata);
    assert AnswerHead(a) == NameBytes(a.name) + (a.kind + w);
    LiesSplit(p, at, NameBytes(a.name), a.kind + w);
  }

  lemma {:induction false} AnswersCut(p: seq<byte>, at: nat, rs: seq<Answer>, c: nat, e: Entry)
    requires c <= |p| < MOD16 && |e.ip| == 4
    requires (forall i :: 0 <= i < |rs| ==> GoodAnswer(rs[i])) && Lies(p, at, Answers(rs))
    ensures WalkAnswers(p[..c], at, |rs|, e) == Cut(rs, Room(at, c), e)
    decreases |rs|
  {
    hide AnswerHead, WalkAnswers, NameBytes, StoreIp, Lies;
    if rs == [] {
      NoAnswers(p[..c], at, e);
    } else {
      var a, head := rs[0], |NameBytes(rs[0].name)| + 10;
      HeadLength(a);
      assert Answers(rs) == AnswerHead(a) + a.rdata + Answers(rs[1..]);
      LiesSplit(p, at, AnswerHead(a) + a.rdata, Answers(rs[1..]));
      AnswerCut(p, at, |rs| - 1, a, c, e);
      NamePart(p, at, a);
      if Room(at, c) >= head {
        if |a.rdata| == 4 {
          IpCut(p, at + head, a.rdata, e.ip, c);
        } else if Room(at, c) < head + |a.rdata| {
          NothingLeft(p[..c], at + head + |a.rdata|, |rs| - 1, e.(ttl := a.ttl));
        } else {
          AnswersCut(p, at + head + |a.rdata|, rs[1..], c, e.(ttl := a.ttl));
        }
      }
    }
  }

  /** A well-formed response cut short after any number of bytes: nothing is stored as long as the
      questions are not complete, and then what Cut says of the bytes that are left. */
  lemma TruncatedResponse(header: seq<byte>, qs: seq<Asked>, rs: seq<Answer>, c: nat, e: Entry)
    requires |header| == 12 && |e.ip| == 4
    requires (forall i :: 0 <= i < |qs| ==> GoodAsked(qs[i])) && (forall i :: 0 <= i < |rs| ==> GoodAnswer(rs[i]))
    requires c <= |header + Questions(qs) + Answers(rs)| < MOD16
    ensures var p, answersAt := header + Questions(qs) + Answers(rs), 12 + |Questions(qs)|;
      Walk(p[..c], |qs|, |rs|, e) == if c < answersAt then e else Cut(rs, c - answersAt, e)
  {
    hide Questions, Answers, SkipQuestions, WalkAnswers, Cut, Lies;
    var q, a := Questions(qs), Answers(rs);
    var p := header + q + a;
    LiesIn(header, q, a);
    LiesIn(header + q, a, []);
    assert p + [] == p;
    QuestionsCut(p, 12, qs, c);
    if c < 12 + |q| {
      NothingLeft(p[..c], 12 + |q|, |rs|, e);
    } else {
      AnswersCut(p, 12 + |q|, rs, c, e);
    }
  }

  /** Uncut, this is the walk over the whole response. */
  lemma {:induction false} WholeIsChosen(rs: seq<Answer>, e: Entry)
    requires |e.ip| == 4 && forall i :: 0 <= i < |rs| ==> GoodAnswer(rs[i])
    ensures Cut(rs, |Answers(rs)|, e) == Chosen(rs, e)
  {
    hide AnswerHead, NameBytes;
    if rs != [] {
      HeadLength(rs[0]);
      assert rs[0].rdata[..|rs[0].rdata|] == rs[0].rdata;
      WholeIsChosen(rs[1..], e.(ttl := rs[0].ttl));
    }
  }
}
