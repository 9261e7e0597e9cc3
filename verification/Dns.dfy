/** The DNS wire format: the query printer of sendDNSRequest and the response walker of
    handleDatagram. */
module Dns {
  import opened Words

  const DNS_HEADER := 12
  const DOT: byte := 46

  // ------------------------------------------------------------ names as labels

  predicate Label(l: seq<byte>) { 1 <= |l| <= 63 && DOT !in l }

  predicate Labels(ls: seq<seq<byte>>) { forall i :: 0 <= i < |ls| ==> Label(ls[i]) }

  /** The dotted form of a name. */
  function Dotted(ls: seq<seq<byte>>): seq<byte> {
    if ls == [] then [] else if |ls| == 1 then ls[0] else Dotted(ls[..|ls| - 1]) + [DOT] + ls[|ls| - 1]
  }

  /** The wire form of labels (section 4.1.2 of RFC 1035), without the final zero. */
  function Wired(ls: seq<seq<byte>>): seq<byte>
    requires Labels(ls)
  {
    if ls == [] then [] else Wired(ls[..|ls| - 1]) + Framed(ls[|ls| - 1])
  }

  /** A label behind its length. */
  function Framed(l: seq<byte>): seq<byte>
    requires Label(l)
  {
    [|l|] + l
  }

  // ------------------------------------------------------------- the printer

  /** How far the printer is: the labels it has finished, on the wire, and the one it is
      copying. */
  datatype Printed = Printed(wire: seq<byte>, current: seq<byte>)

  function Finish(p: Printed): seq<byte> { p.wire + [|p.current| % 256] + p.current }

  function Print(name: seq<byte>): (p: Printed)
    ensures |p.wire| + |p.current| == |name|
  {
    if name == [] then Printed([], [])
    else
      var p := Print(name[..|name| - 1]);
      var c := name[|name| - 1];
      if c == DOT then Printed(Finish(p), []) else Printed(p.wire, p.current + [c])
  }

  /** The question for a name: labels, a zero, then type A and class IN. */
  function Question(name: seq<byte>): (q: seq<byte>)
    ensures |q| == |name| + 6
  {
    Finish(Print(name)) + [0, 0, 1, 0, 1]
  }

  lemma {:induction false} PrintRun(name: seq<byte>, l: seq<byte>)
    requires DOT !in l
    ensures Print(name + l) == Printed(Print(name).wire, Print(name).current + l)
  {
    if l == [] {
      assert name + l == name;
      assert Print(name).current + l == Print(name).current;
    } else {
      var k := |l| - 1;
      assert (name + l)[..|name + l| - 1] == name + l[..k];
      PrintRun(name, l[..k]);
      assert Print(name).current + l[..k] + [l[k]] == Print(name).current + l;
    }
  }

  lemma PrintNext(name: seq<byte>, l: seq<byte>)
    requires Label(l)
    ensures Finish(Print(name + [DOT] + l)) == Finish(Print(name)) + Framed(l)
  {
    hide Print, Finish;
    PrintDot(name);
    PrintRun(name + [DOT], l);
    FinishLabel(Finish(Print(name)), l);
  }

  lemma FinishLabel(wire: seq<byte>, l: seq<byte>)
    requires Label(l)
    ensures Finish(Printed(wire, [] + l)) == wire + Framed(l)
  {
    assert [] + l == l && |l| % 256 == |l|;
  }

  lemma PrintDot(name: seq<byte>)
    ensures Print(name + [DOT]) == Printed(Finish(Print(name)), [])
  {
    hide Finish;
    assert (name + [DOT])[..|name|] == name;
  }

  /** Printing a dotted name gives the wire form of its labels. */
  lemma {:induction false} PrintDotted(ls: seq<seq<byte>>)
    requires Labels(ls) && ls != []
    ensures Finish(Print(Dotted(ls))) == Wired(ls)
  {
    hide Print, Finish;
    var k := |ls| - 1;
    if k == 0 {
      PrintFirst(ls[0]);
      assert ls[..0] == [];
    } else {
      PrintDotted(ls[..k]);
      PrintNext(Dotted(ls[..k]), ls[k]);
    }
  }

  lemma PrintFirst(l: seq<byte>)
    requires Label(l)
    ensures Finish(Print(l)) == Framed(l)
  {
    hide Print, Finish;
    PrintNothing();
    PrintRun([], l);
    FinishLabel([], l);
    assert [] + l == l && [] + Framed(l) == Framed(l);
  }

  lemma PrintNothing()
    ensures Print([]) == Printed([], [])
  {
  }

  // ----------------------------------------------------- reading names back

  /** A reader of section 4.1.2: the labels at `at`, and the offset past the final zero. */
  function ReadLabels(p: seq<byte>, at: nat): Option<(seq<seq<byte>>, nat)>
    decreases |p| - at
  {
    if at >= |p| then None
    else if p[at] == 0 then Some(([], at + 1))
    else if at + 1 + p[at] > |p| then None
    else
      match ReadLabels(p, at + 1 + p[at])
      case None => None
      case Some((ls, end)) => Some(([p[at + 1..at + 1 + p[at]]] + ls, end))
  }

  /** The skip loop over a question's name. */
  function SkipLabels(p: seq<byte>, at: nat): Option<nat>
    decreases |p| - at
  {
    if at >= |p| then None else if p[at] == 0 then Some(at + 1) else SkipLabels(p, at + 1 + p[at])
  }

  lemma {:induction false} WiredFront(ls: seq<seq<byte>>)
    requires Labels(ls) && ls != []
    ensures Wired(ls) == Framed(ls[0]) + Wired(ls[1..])
  {
    hide Framed;
    var k := |ls| - 1;
    if k == 0 {
      assert ls[..0] == [] && ls[1..] == [];
    } else {
      WiredFront(ls[..k]);
      var middle := ls[1..][..k - 1];
      assert ls[..k][1..] == middle;
      assert Wired(ls[1..]) == Wired(middle) + Framed(ls[k]);
      assert Wired(ls) == Framed(ls[0]) + Wired(middle) + Framed(ls[k]);
    }
  }

  /** s lies in p at `at`. */
  predicate Lies(p: seq<byte>, at: nat, s: seq<byte>) { at + |s| <= |p| && p[at..at + |s|] == s }

  lemma LiesSplit(p: seq<byte>, at: nat, x: seq<byte>, y: seq<byte>)
    requires Lies(p, at, x + y)
    ensures Lies(p, at, x) && Lies(p, at + |x|, y)
  {
    assert p[at..at + |x|] == p[at..at + |x + y|][..|x|] == x;
    assert p[at + |x|..at + |x + y|] == p[at..at + |x + y|][|x|..] == y;
  }

  lemma LiesIn(x: seq<byte>, y: seq<byte>, z: seq<byte>)
    ensures Lies(x + y + z, |x|, y)
  {
  }

  /** Labels followed by a zero, inside any packet, read back as they were, and the skip
      loop stops at the offset the reader stops at. */
  lemma {:induction false} LabelsComeBack(p: seq<byte>, at: nat, ls: seq<seq<byte>>)
    requires Labels(ls) && Lies(p, at, Wired(ls) + [0])
    ensures ReadLabels(p, at) == Some((ls, at + |Wired(ls)| + 1))
    ensures SkipLabels(p, at) == Some(at + |Wired(ls)| + 1)
    decreases |ls|
  {
    if ls == [] {
      assert p[at] == p[at..at + 1][0];
    } else {
      hide Wired;
      WiredFront(ls);
      var l := Framed(ls[0]);
      assert Wired(ls) + [0] == l + (Wired(ls[1..]) + [0]);
      LiesSplit(p, at, l, Wired(ls[1..]) + [0]);
      assert p[at] == p[at..at + |l|][0];
      assert p[at + 1..at + |l|] == p[at..at + |l|][1..] == ls[0];
      LabelsComeBack(p, at + |l|, ls[1..]);
      assert [ls[0]] + ls[1..] == ls;
    }
  }

  lemma {:induction false} WiredLength(ls: seq<seq<byte>>)
    requires Labels(ls) && ls != []
    ensures |Wired(ls)| == |Dotted(ls)| + 1
  {
    if |ls| > 1 {
      WiredLength(ls[..|ls| - 1]);
    } else {
      assert Wired(ls[..0]) == [];
    }
  }

  /** The query printer and the question walker undo each other: for every name of labels,
      a packet that carries its question at the end of the header reads back as the same
      labels, and the walker stops at 12 + strlen + 6. */
  lemma QuestionComesBack(ls: seq<seq<byte>>, header: seq<byte>, rest: seq<byte>)
    requires Labels(ls) && ls != [] && |header| == DNS_HEADER
    ensures var name := Dotted(ls); var p := header + Question(name) + rest;
      && ReadLabels(p, DNS_HEADER) == Some((ls, DNS_HEADER + |name| + 2))
      && SkipLabels(p, DNS_HEADER) == Some(DNS_HEADER + |name| + 2)
      && DNS_HEADER + |name| + 2 + 4 == |header + Question(name)|
  {
    var name := Dotted(ls);
    var p := header + Question(name) + rest;
    PrintDotted(ls);
    WiredLength(ls);
    assert p[DNS_HEADER..DNS_HEADER + |Wired(ls)| + 1] == Wired(ls) + [0];
    LabelsComeBack(p, DNS_HEADER, ls);
  }

  // ------------------------------------------------------- the printing loop

  method Write8(buffer: array<byte>, at: nat, x: byte) returns (ok: bool)
    modifies buffer
    ensures ok == (at < buffer.Length)
    ensures buffer[..] == if ok then old(buffer[..])[at := x] else old(buffer[..])
  {
    ok := at < buffer.Length;
    if ok {
      buffer[at] := x;
    }
  }

  /** m holds what the printer has written so far: the finished labels, then a gap for a
      length byte, then the chars of the current label. */
  predicate Holds(m: seq<byte>, p: Printed) {
    var at := DNS_HEADER + |p.wire|;
    && at <= |m| && m[DNS_HEADER..at] == p.wire
    && (p.current != [] ==> at + 1 + |p.current| <= |m| && m[at + 1..at + 1 + |p.current|] == p.current)
  }

  lemma HoldsChar(m: seq<byte>, p: Printed, c: byte)
    requires Holds(m, p) && DNS_HEADER + |p.wire| + 1 + |p.current| < |m|
    ensures Holds(m[DNS_HEADER + |p.wire| + 1 + |p.current| := c], Printed(p.wire, p.current + [c]))
  {
  }

  lemma HoldsDot(m: seq<byte>, p: Printed)
    requires Holds(m, p) && DNS_HEADER + |p.wire| < |m|
    ensures Holds(m[DNS_HEADER + |p.wire| := |p.current| % 256], Printed(Finish(p), []))
  {
  }

  lemma NothingHeld(m: seq<byte>)
    requires DNS_HEADER <= |m|
    ensures Print([]) == Printed([], []) && Holds(m, Print([]))
  {
  }

  lemma PrintStep(name: seq<byte>, i: nat)
    requires i < |name|
    ensures var p := Print(name[..i]);
      Print(name[..i + 1]) == if name[i] == DOT then Printed(Finish(p), []) else Printed(p.wire, p.current + [name[i]])
  {
    assert name[..i + 1][..i] == name[..i];
  }

  /** The loop of sendDNSRequest: writes each char behind the length byte of its label, and
      the length byte when the label ends. */
  method WriteName(buffer: array<byte>, name: seq<byte>) returns (ok: bool, lengthAt: nat, length: nat)
    requires |name| <= 255 && DNS_HEADER <= buffer.Length
    modifies buffer
    ensures buffer[..DNS_HEADER] == old(buffer[..DNS_HEADER])
    ensures ok ==> lengthAt == DNS_HEADER + |Print(name).wire| && length == |Print(name).current|
    ensures ok ==> Holds(buffer[..], Print(name))
    ensures DNS_HEADER + 1 + |name| < buffer.Length ==> ok
  {
    hide Holds, Print;
    NothingHeld(buffer[..]);
    assert name[..0] == [];
    lengthAt, length := DNS_HEADER, 0;
    for i := 0 to |name|
      invariant lengthAt == DNS_HEADER + |Print(name[..i]).wire| && length == |Print(name[..i]).current|
      invariant Holds(buffer[..], Print(name[..i]))
      invariant buffer[..DNS_HEADER] == old(buffer[..DNS_HEADER])
    {
      ghost var p, m := Print(name[..i]), buffer[..];
      PrintStep(name, i);
      if name[i] == DOT {
        ok := Write8(buffer, lengthAt, length);
        if !ok {
          return;
        }
        HoldsDot(m, p);
        lengthAt, length := lengthAt + 1 + length, 0;
      } else {
        ok := Write8(buffer, lengthAt + 1 + length, name[i]);
        if !ok {
          return;
        }
        HoldsChar(m, p, name[i]);
        length := length + 1;
      }
    }
    assert name[..|name|] == name;
    ok := true;
  }

  /** Identification, then a recursive query with one question. */
  function RequestHeader(id: nat): (h: seq<byte>)
    requires id < MOD16
    ensures |h| == DNS_HEADER
  {
    [id / 256, id % 256, 1, 0, 0, 1, 0, 0, 0, 0, 0, 0]
  }

  /** A request as section 4.1 of RFC 1035 reads it: its number, a standard query that wants
      recursion, one question and nothing else; then the labels, type A and class IN at the end. */
  lemma RequestReadsBack(id: nat, ls: seq<seq<byte>>)
    requires id < MOD16 && Labels(ls) && ls != []
    ensures var m := RequestHeader(id) + Question(Dotted(ls));
      && Word(m, 0) == id && Word(m, 2) == 0x0100 && Word(m, 4) == 1
      && Word(m, 6) == 0 && Word(m, 8) == 0 && Word(m, 10) == 0
      && ReadLabels(m, 12) == Some((ls, |m| - 4))
      && Word(m, |m| - 4) == 1 && Word(m, |m| - 2) == 1
  {
    hide ReadLabels, SkipLabels, Finish, Print;
    var m := RequestHeader(id) + Question(Dotted(ls));
    QuestionComesBack(ls, RequestHeader(id), []);
    assert m + [] == m;
  }

  method WriteAll(buffer: array<byte>, at: nat, data: seq<byte>) returns (ok: bool)
    modifies buffer
    ensures ok == (at + |data| <= buffer.Length || data == [])
    ensures ok && data != [] ==> buffer[..] == old(buffer[..at]) + data + old(buffer[at + |data|..])
    ensures buffer[..if at < buffer.Length then at else buffer.Length] ==
      old(buffer[..if at < buffer.Length then at else buffer.Length])
  {
    ok := true;
    for i := 0 to |data|
      invariant ok && (i == 0 || at + i <= buffer.Length)
      invariant i > 0 ==> buffer[..] == old(buffer[..at]) + data[..i] + old(buffer[at + i..])
      invariant i == 0 ==> buffer[..] == old(buffer[..])
    {
      ok := Write8(buffer, at + i, data[i]);
      if !ok {
        return;
      }
    }
  }

  /** The message sendDNSRequest hands to UDP: it fails exactly when the name is longer than
      255 chars or the buffer is too short for the whole message. */
  method WriteRequest(buffer: array<byte>, name: seq<byte>, id: nat) returns (ok: bool, length: nat)
    requires id < MOD16
    modifies buffer
    ensures ok == (|name| <= 255 && DNS_HEADER + |name| + 6 <= buffer.Length)
    ensures ok ==> length == DNS_HEADER + |name| + 6 && buffer[..length] == RequestHeader(id) + Question(name)
  {
    ok, length := false, 0;
    if |name| > 255 || buffer.Length < DNS_HEADER {
      return;
    }
    ok := WriteAll(buffer, 0, RequestHeader(id));
    assert buffer[..DNS_HEADER] == RequestHeader(id);
    var lengthAt, hostLength;
    ok, lengthAt, hostLength := WriteName(buffer, name);
    if ok {
      ok, length := WriteEnd(buffer, name, lengthAt, hostLength);
    }
  }

  /** The last length byte, the root label, the type and the class. */
  method WriteEnd(buffer: array<byte>, ghost name: seq<byte>, lengthAt: nat, hostLength: nat)
      returns (ok: bool, length: nat)
    requires |name| <= 255 && lengthAt == DNS_HEADER + |Print(name).wire| && hostLength == |Print(name).current|
    requires DNS_HEADER <= buffer.Length && Holds(buffer[..], Print(name))
    modifies buffer
    ensures ok == (DNS_HEADER + |name| + 6 <= buffer.Length)
    ensures ok ==> length == DNS_HEADER + |name| + 6
                   && buffer[..length] == old(buffer[..DNS_HEADER]) + Question(name)
  {
    length := 0;
    ghost var m := buffer[..];
    ok := Write8(buffer, lengthAt, hostLength);
    if !ok {
      return;
    }
    ghost var m1 := buffer[..];
    var end := lengthAt + 1 + hostLength;
    ok := WriteAll(buffer, end, [0, 0, 1, 0, 1]);
    if ok {
      length := end + 5;
      FinishedName(m, name);
      assert m1[..end] == buffer[..end];
    }
  }

  lemma FinishedName(m: seq<byte>, name: seq<byte>)
    requires |name| <= 255 && Holds(m, Print(name)) && DNS_HEADER + |name| + 1 <= |m|
    ensures m[DNS_HEADER + |Print(name).wire| := |Print(name).current|][..DNS_HEADER + |name| + 1]
            == m[..DNS_HEADER] + Finish(Print(name))
  {
  }
}
