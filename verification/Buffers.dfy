/** MemBuffer, chains of OffsetBuffers over one, and the two ways to copy between
    them: byte by byte through the views, and directly from root to root. */
module Buffers {
  import opened Words

  // ------------------------------------------------------- copies, on values

  /** m with `data` written at `at`. */
  function Blit(m: seq<byte>, at: nat, data: seq<byte>): (r: seq<byte>)
    requires at + |data| <= |m|
    ensures |r| == |m|
  {
    m[..at] + data + m[at + |data|..]
  }

  /** The destination's memory after the bytes at s, s+1, ... of the source have been
      copied to d, d+1, ... one at a time in ascending order.  When source and
      destination are one memory, a byte written earlier may be read later. */
  function Copied(src: seq<byte>, dst: seq<byte>, same: bool, d: nat, s: nat, n: nat): (r: seq<byte>)
    requires d + n <= |dst| && s + n <= |src| && (same ==> src == dst)
    ensures |r| == |dst|
  {
    if n == 0 then dst
    else
      var p := Copied(src, dst, same, d, s, n - 1);
      p[d + n - 1 := if same then p[s + n - 1] else src[s + n - 1]]
  }

  function Ascending(m: seq<byte>, d: nat, s: nat, n: nat): (r: seq<byte>)
    requires d + n <= |m| && s + n <= |m|
    ensures |r| == |m|
  {
    Copied(m, m, true, d, s, n)
  }

  /** Between two memories a copy moves the bytes. */
  lemma {:induction false} CopiedApart(src: seq<byte>, dst: seq<byte>, d: nat, s: nat, n: nat)
    requires d + n <= |dst| && s + n <= |src|
    ensures Copied(src, dst, false, d, s, n) == Blit(dst, d, src[s..s + n])
  {
    if n > 0 {
      CopiedApart(src, dst, d, s, n - 1);
    }
  }

  /** A length of 0 asks for as much as both buffers hold. */
  function Effective(len: nat, size: nat, destSize: nat): nat {
    if len != 0 then len else if destSize < size then destSize else size
  }

  lemma EffectiveIff(len: nat, size: nat, destSize: nat, k: nat)
    ensures len != 0 ==> Effective(len, size, destSize) == len
    ensures k <= Effective(0, size, destSize) <==> k <= size && k <= destSize
  {
  }

  /** The destination's memory after a copy that reported `ok`. */
  function Outcome(from: seq<byte>, to: seq<byte>, same: bool, d: nat, s: nat, n: nat, ok: bool): seq<byte> {
    if ok && s + n <= |from| && d + n <= |to| && (same ==> from == to) then Copied(from, to, same, d, s, n) else to
  }

  /** Outside the destination an ascending copy changes nothing; a copy downwards, or
      between disjoint ranges, moves the source. */
  lemma {:induction false} AscendingMoves(m: seq<byte>, d: nat, s: nat, n: nat, i: nat)
    requires d + n <= |m| && s + n <= |m| && i < |m|
    ensures !(d <= i < d + n) ==> Ascending(m, d, s, n)[i] == m[i]
    ensures d <= i < d + n && (d <= s || s + n <= d) ==> Ascending(m, d, s, n)[i] == m[s + (i - d)]
  {
    if n > 0 {
      AscendingMoves(m, d, s, n - 1, i);
      AscendingMoves(m, d, s, n - 1, s + n - 1);
    }
  }

  /** k reduced to the range below `gap`. */
  function Within(k: nat, gap: nat): nat
    requires gap > 0
  {
    if k < gap then k else Within(k - gap, gap)
  }

  /** An overlapping copy upwards repeats the first d - s source bytes. */
  lemma {:induction false} AscendingRepeats(m: seq<byte>, d: nat, s: nat, n: nat, k: nat)
    requires s < d && d + n <= |m| && k < n
    ensures Within(k, d - s) < d - s
    ensures Ascending(m, d, s, n)[d + k] == m[s + Within(k, d - s)]
    decreases n, k
  {
    if k < n - 1 {
      AscendingRepeats(m, d, s, n - 1, k);
    } else if k < d - s {
      AscendingMoves(m, d, s, n - 1, s + k);
    } else {
      AscendingRepeats(m, d, s, n - 1, k - (d - s));
    }
  }

  // ------------------------------------------------------------ the buffers

  class MemBuffer {
    const bytes: array<byte>

    constructor (length: nat)
      ensures fresh(bytes) && bytes.Length == length
    {
      bytes := new byte[length](i => 0);
    }

    method Read(offset: nat, len: nat) returns (ok: bool, data: seq<byte>)
      requires offset + len < MOD16
      ensures ok == (offset + len <= bytes.Length)
      ensures ok ==> data == bytes[offset..offset + len]
    {
      if offset + len > bytes.Length {
        return false, [];
      }
      return true, bytes[offset..offset + len];
    }

    method Write(offset: nat, data: seq<byte>) returns (ok: bool)
      requires offset + |data| < MOD16
      modifies bytes
      ensures ok == (offset + |data| <= bytes.Length)
      ensures bytes[..] == if ok then Blit(old(bytes[..]), offset, data) else old(bytes[..])
    {
      if offset + |data| > bytes.Length {
        return false;
      }
      for i := 0 to |data|
        invariant bytes[..offset] == old(bytes[..offset])
        invariant bytes[offset..offset + i] == data[..i]
        invariant bytes[offset + i..] == old(bytes[offset + i..])
      {
        bytes[offset + i] := data[i];
      }
      ghost var was := old(bytes[..]);
      assert was[offset + |data|..] == old(bytes[offset + |data|..]);
      return true;
    }

    /** The inherited copy between two roots; a length of 0 means as much as both hold. */
    method CopyTo(destination: MemBuffer, destStart: nat, srcStart: nat, len: nat) returns (ok: bool)
      requires bytes.Length < MOD16 && destination.bytes.Length < MOD16
      requires destStart + len < MOD16 && srcStart + len < MOD16
      modifies destination.bytes
      ensures var n := Effective(len, bytes.Length, destination.bytes.Length);
        && ok == (srcStart + n <= bytes.Length && destStart + n <= destination.bytes.Length)
        && destination.bytes[..] ==
             Outcome(old(bytes[..]), old(destination.bytes[..]), bytes == destination.bytes,
                     destStart, srcStart, n, ok)
    {
      var n := Effective(len, bytes.Length, destination.bytes.Length);
      if srcStart + n > bytes.Length || destStart + n > destination.bytes.Length {
        return false;
      }
      ghost var from, to := bytes[..], destination.bytes[..];
      for k := 0 to n
        invariant destination.bytes[..] == Copied(from, to, bytes == destination.bytes, destStart, srcStart, k)
        invariant bytes != destination.bytes ==> bytes[..] == from
      {
        assert bytes[srcStart + k] == bytes[..][srcStart + k];
        destination.bytes[destStart + k] := bytes[srcStart + k];
      }
      return true;
    }
  }

  datatype Buffer = Mem(m: MemBuffer) | View(v: OffsetBuffer)

  /** The view itself, for a frame. */
  ghost function Top(b: Buffer): set<OffsetBuffer> { if b.View? then {b.v} else {} }

  ghost function Views(b: Buffer): set<OffsetBuffer>
    reads Top(b)
  {
    if b.View? then b.v.Repr else {}
  }

  /** A chain of views, each inside the one below it, ending in a MemBuffer of fewer
      than 65536 bytes. */
  ghost predicate Sound(b: Buffer)
    reads Top(b), Views(b)
  {
    match b
    case Mem(m) => m.bytes.Length < MOD16
    case View(v) => v.Valid()
  }

  function SizeOf(b: Buffer): nat
    reads Top(b)
  {
    match b
    case Mem(m) => m.bytes.Length
    case View(v) => v.length
  }

  /** The MemBuffer at the bottom, and where in it the buffer starts. */
  ghost function RootOf(b: Buffer): MemBuffer
    reads Top(b)
  {
    match b
    case Mem(m) => m
    case View(v) => v.root
  }

  ghost function BaseOf(b: Buffer): nat
    reads Top(b)
  {
    match b
    case Mem(m) => 0
    case View(v) => v.base
  }

  class OffsetBuffer {
    var offset: nat
    var length: nat
    var inner: Buffer
    ghost var Repr: set<OffsetBuffer>
    ghost var root: MemBuffer
    ghost var base: nat

    ghost predicate Valid()
      reads this, Repr
      ensures Valid() ==> this in Repr && base + length <= root.bytes.Length < MOD16
      decreases Repr
    {
      && this in Repr && base + length <= root.bytes.Length < MOD16
      && (match inner
          case Mem(m) => offset + length <= m.bytes.Length && root == m && base == offset
          case View(w) =>
            && w in Repr && w.Repr <= Repr && this !in w.Repr && w.Valid()
            && offset + length <= w.length && root == w.root && base == offset + w.base)
    }

    /** The bytes the view shows. */
    ghost function Shown(): (s: seq<byte>)
      requires Valid()
      reads this, Repr, root.bytes
      ensures |s| == length
    {
      root.bytes[base..base + length]
    }

    constructor (buffer: Buffer, offset: nat, length: nat)
      requires Sound(buffer)
      ensures Valid() && fresh(Repr - Views(buffer))
      ensures root == RootOf(buffer)
      ensures var at := if offset > SizeOf(buffer) then SizeOf(buffer) else offset;
        && base == BaseOf(buffer) + at
        && this.length == if 0 < length < SizeOf(buffer) - at then length else SizeOf(buffer) - at
    {
      var at := if offset > SizeOf(buffer) then SizeOf(buffer) else offset;
      this.offset := at;
      this.inner := buffer;
      this.length := if 0 < length < SizeOf(buffer) - at then length else SizeOf(buffer) - at;
      Repr := {this} + Views(buffer);
      root := RootOf(buffer);
      base := BaseOf(buffer) + at;
    }

    /** Points the view elsewhere; a length of 0, or one that does not fit, means
        everything from the offset on. */
    method Reinit(buffer: Buffer, offset: nat, length: nat) returns (ok: bool)
      requires Sound(buffer) && this !in Views(buffer)
      modifies this
      ensures Valid() && Sound(buffer) && Repr == {this} + Views(buffer)
      ensures root == RootOf(buffer)
      ensures var at := if offset > SizeOf(buffer) then SizeOf(buffer) else offset;
        && base == BaseOf(buffer) + at
        && this.length == (if 0 < length < SizeOf(buffer) - at then length else SizeOf(buffer) - at)
        && ok == (offset <= SizeOf(buffer) && (length == 0 || length < SizeOf(buffer) - at))
    {
      ghost var views, r, b := Views(buffer), RootOf(buffer), BaseOf(buffer);
      ok := true;
      var at := offset;
      var size := SizeOf(buffer);
      if offset > size {
        at := size;
        ok := false;
      }
      var fit := size - at;
      if length > 0 {
        if length < fit {
          fit := length;
        } else {
          ok := false;
        }
      }
      this.offset := at;
      this.inner := buffer;
      this.length := fit;
      root, base, Repr := r, b + at, {this} + views;
      assert Views(buffer) == views && SizeOf(buffer) == size && RootOf(buffer) == r && BaseOf(buffer) == b;
      assert Sound(buffer);
    }

    method GetRootBuffer() returns (r: MemBuffer)
      requires Valid()
      ensures r == root
    {
      var b := this;
      while b.inner.View?
        invariant b.Valid() && b.root == this.root
        decreases b.Repr
      {
        b := b.inner.v;
      }
      r := b.inner.m;
    }

    method GetRootBufferOffset() returns (at: nat)
      requires Valid()
      ensures at == base
    {
      var b := this;
      at := b.offset;
      while b.inner.View?
        invariant b.Valid() && b.root == this.root && at + b.base == this.base + b.offset
        invariant b.offset <= b.base
        decreases b.Repr
      {
        b := b.inner.v;
        assert at + b.base == this.base;
        at := Add16(at, b.offset);
      }
    }

    method Read(start: nat, len: nat) returns (ok: bool, data: seq<byte>)
      requires Valid() && start + len < MOD16
      ensures ok == (start + len <= length)
      ensures ok ==> data == root.bytes[base + start..base + start + len]
      decreases Repr
    {
      if start + len > length {
        return false, [];
      }
      match inner {
        case Mem(m) => ok, data := m.Read(offset + start, len);
        case View(w) =>
          ok, data := w.Read(offset + start, len);
      }
    }

    method Write(start: nat, data: seq<byte>) returns (ok: bool)
      requires Valid() && start + |data| < MOD16
      modifies root.bytes
      ensures Valid()
      ensures ok == (start + |data| <= length)
      ensures root.bytes[..] == if ok then Blit(old(root.bytes[..]), base + start, data) else old(root.bytes[..])
      decreases Repr
    {
      if start + |data| > length {
        return false;
      }
      match inner {
        case Mem(m) => ok := m.Write(offset + start, data);
        case View(w) =>
          ok := w.Write(offset + start, data);
      }
    }

    /** The copy every Buffer inherits: one byte at a time through read8 and write8 of
        the two views.  A length of 0 means as much as both hold. */
    method ByteCopy(destination: OffsetBuffer, destStart: nat, srcStart: nat, len: nat) returns (ok: bool)
      requires Valid() && destination.Valid()
      requires var n := Effective(len, length, destination.length); destStart + n < MOD16 && srcStart + n < MOD16
      modifies destination.root.bytes
      ensures var n := Effective(len, length, destination.length);
        && ok == (srcStart + n <= length && destStart + n <= destination.length)
        && destination.root.bytes[..] ==
             Outcome(old(root.bytes[..]), old(destination.root.bytes[..]), root.bytes == destination.root.bytes,
                     destination.base + destStart, base + srcStart, n, ok)
    {
      var n := Effective(len, length, destination.length);
      if srcStart + n > length || destStart + n > destination.length {
        return false;
      }
      CopyBytes(destination, destStart, srcStart, n);
      return true;
    }

    method CopyBytes(destination: OffsetBuffer, destStart: nat, srcStart: nat, n: nat)
      requires Valid() && destination.Valid()
      requires srcStart + n <= length && destStart + n <= destination.length
      modifies destination.root.bytes
      ensures destination.root.bytes[..] ==
        Copied(old(root.bytes[..]), old(destination.root.bytes[..]), root.bytes == destination.root.bytes,
               destination.base + destStart, base + srcStart, n)
    {
      ghost var s, d, sa, da := base + srcStart, destination.base + destStart, root.bytes, destination.root.bytes;
      ghost var from, to, same := sa[..], da[..], sa == da;
      ghost var cur := to;
      for k := 0 to n
        invariant cur == Copied(from, to, same, d, s, k)
        invariant da[..] == cur && sa[..] == if same then cur else from
      {
        CopyByte(destination, destStart + k, srcStart + k);
        cur := cur[d + k := if same then cur[s + k] else from[s + k]];
      }
    }

    /** One turn of the loop. */
    method CopyByte(destination: OffsetBuffer, destAt: nat, srcAt: nat)
      requires Valid() && destination.Valid() && srcAt < length && destAt < destination.length
      modifies destination.root.bytes
      ensures destination.root.bytes[..] ==
        old(destination.root.bytes[..])[destination.base + destAt := old(root.bytes[..])[base + srcAt]]
    {
      var _, x := Read(srcAt, 1);
      var _ := destination.Write(destAt, x);
      ghost var was := old(destination.root.bytes[..]);
      assert x == [old(root.bytes[..])[base + srcAt]];
      assert Blit(was, destination.base + destAt, x) == was[destination.base + destAt := x[0]];
    }

    /** The fast copy: from root to root, past all the views. */
    method CopyTo(destination: OffsetBuffer, destStart: nat, srcStart: nat, len: nat) returns (ok: bool)
      requires Valid() && destination.Valid() && (len >= 1 || length >= 1)
      requires var n := if len != 0 then len else length; destStart + n < MOD16 && srcStart + n < MOD16
      modifies destination.root.bytes
      ensures var n := if len != 0 then len else length;
        && ok == (srcStart + n <= length && destStart + n <= destination.length)
        && destination.root.bytes[..] ==
             Outcome(old(root.bytes[..]), old(destination.root.bytes[..]), root.bytes == destination.root.bytes,
                     destination.base + destStart, base + srcStart, n, ok)
    {
      var n := len;
      if n == 0 {
        n := length;
      }
      if n + srcStart > length || n + destStart > destination.length {
        return false;
      }
      RootCopy(destination, destStart, srcStart, n);
      return true;
    }

    /** The same to a destination that is a root itself, whose own bounds the root's copy
        checks. */
    method CopyToRoot(destination: MemBuffer, destStart: nat, srcStart: nat, len: nat) returns (ok: bool)
      requires Valid() && destination.bytes.Length < MOD16 && (len >= 1 || length >= 1)
      requires var n := if len != 0 then len else length; destStart + n < MOD16 && srcStart + n < MOD16
      modifies destination.bytes
      ensures var n := if len != 0 then len else length;
        && ok == (srcStart + n <= length && destStart + n <= destination.bytes.Length)
        && destination.bytes[..] ==
             Outcome(old(root.bytes[..]), old(destination.bytes[..]), root.bytes == destination.bytes,
                     destStart, base + srcStart, n, ok)
    {
      var n := len;
      if n == 0 {
        n := length;
      }
      if n + srcStart > length {
        return false;
      }
      ghost var f0, t0 := root.bytes[..], destination.bytes[..];
      var from := GetRootBuffer();
      var at := GetRootBufferOffset();
      assert from.bytes[..] == f0 && destination.bytes[..] == t0;
      ok := from.CopyTo(destination, destStart, srcStart + at, n);
    }

    method RootCopy(destination: OffsetBuffer, destStart: nat, srcStart: nat, n: nat)
      requires Valid() && destination.Valid() && n >= 1
      requires srcStart + n <= length && destStart + n <= destination.length
      modifies destination.root.bytes
      ensures destination.root.bytes[..] ==
        Copied(old(root.bytes[..]), old(destination.root.bytes[..]), root.bytes == destination.root.bytes,
               destination.base + destStart, base + srcStart, n)
    {
      ghost var f0, t0 := root.bytes[..], destination.root.bytes[..];
      var from := GetRootBuffer();
      var at := GetRootBufferOffset();
      var to := destination.GetRootBuffer();
      var destAt := destination.GetRootBufferOffset();
      assert from.bytes[..] == f0 && to.bytes[..] == t0;
      var _ := from.CopyTo(to, destStart + destAt, srcStart + at, n);
    }
  }
}
