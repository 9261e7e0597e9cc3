/** BufferedSocket: received bytes wait in an array until the application reads them. */
module BufferedSockets {
  import opened Words
  import opened Buffers

  // --------------------------------------------------------------- on values

  /** A receive buffer: what has been read and what waits. */
  datatype Inbox = Inbox(taken: seq<byte>, buffered: seq<byte>, capacity: nat)

  /** onDataReceived: whether the data is taken, and the buffer then. */
  function Received(box: Inbox, data: seq<byte>): (bool, Inbox) {
    if |box.buffered| + |data| <= box.capacity then (true, box.(buffered := box.buffered + data)) else (false, box)
  }

  function ReadOut(box: Inbox, n: nat): Inbox {
    var k := if n > |box.buffered| then |box.buffered| else n;
    box.(taken := box.taken + box.buffered[..k], buffered := box.buffered[k..])
  }

  /** The check of onDataReceived is made in 16 bits.  It says what it means exactly when the
      sum fits; beyond that it lets everything in. */
  lemma WindowCheckIff(bufferSize: nat, size: nat, capacity: nat)
    requires bufferSize <= capacity < MOD16 && size < MOD16
    ensures (Add16(bufferSize, size) > capacity <==> bufferSize + size > capacity) <==> bufferSize + size < MOD16
  {
  }

  // --------------------------------------------------------------- the class

  class BufferedSocket {
    const recvBuffer: array<byte>
    var bufferSize: nat
    /** Everything accepted, and everything read, so far. */
    ghost var accepted: seq<byte>
    ghost var taken: seq<byte>

    ghost predicate Valid()
      reads this, recvBuffer
    {
      bufferSize <= recvBuffer.Length < MOD16 && accepted == taken + recvBuffer[..bufferSize]
    }

    ghost function Value(): Inbox
      requires Valid()
      reads this, recvBuffer
    {
      Inbox(taken, recvBuffer[..bufferSize], recvBuffer.Length)
    }

    constructor (bufferCapacity: nat)
      requires bufferCapacity < MOD16
      ensures Valid() && Value() == Inbox([], [], bufferCapacity)
      ensures recvBuffer.Length == bufferCapacity && bufferSize == 0 && accepted == taken == []
    {
      recvBuffer := new byte[bufferCapacity](_ => 0);
      bufferSize, accepted, taken := 0, [], [];
    }

    function ApplicationWindowSize(): (n: nat)
      requires Valid()
      reads this, recvBuffer
      ensures bufferSize + n == recvBuffer.Length
    {
      recvBuffer.Length - bufferSize
    }

    /** A segment is taken exactly when it fits the window, as long as the 16-bit sum of the
        check does not wrap. */
    method OnDataReceived(buf: OffsetBuffer) returns (ok: bool)
      requires Valid() && buf.Valid() && buf.root.bytes != recvBuffer && bufferSize + buf.length < MOD16
      modifies this`bufferSize, this`accepted, recvBuffer
      ensures Valid() && (ok, Value()) == Received(old(Value()), old(buf.Shown()))
      ensures ok == (buf.length <= old(ApplicationWindowSize()))
      ensures accepted == old(accepted) + if ok then old(buf.Shown()) else []
    {
      hide OffsetBuffer.Valid;
      if Add16(bufferSize, buf.length) > recvBuffer.Length {
        return false;
      }
      var data := ReadAll(buf);
      Append(data);
      bufferSize := bufferSize + |data|;
      accepted := accepted + data;
      return true;
    }

    static method ReadAll(buf: OffsetBuffer) returns (data: seq<byte>)
      requires buf.Valid()
      ensures data == buf.Shown()
    {
      var _, all := buf.Read(0, buf.length);
      data := all;
      assert data == buf.Shown();
    }

    /** The copy of the data behind what is buffered. */
    method Append(data: seq<byte>)
      requires bufferSize + |data| <= recvBuffer.Length
      modifies recvBuffer
      ensures recvBuffer[..bufferSize + |data|] == old(recvBuffer[..bufferSize]) + data
    {
      for i := 0 to |data|
        invariant recvBuffer[..bufferSize] == old(recvBuffer[..bufferSize])
        invariant recvBuffer[bufferSize..bufferSize + i] == data[..i]
      {
        recvBuffer[bufferSize + i] := data[i];
      }
    }

    /** The oldest bytes, at most `length` of them; the rest moves to the front. */
    method Read(length: nat) returns (data: seq<byte>)
      requires Valid()
      modifies this`bufferSize, this`taken, recvBuffer
      ensures Valid() && accepted == old(accepted) && Value() == ReadOut(old(Value()), length)
      ensures |data| == if length > old(bufferSize) then old(bufferSize) else length
      ensures old(recvBuffer[..bufferSize]) == data + recvBuffer[..bufferSize]
      ensures taken == old(taken) + data
    {
      var n := if length > bufferSize then bufferSize else length;
      data := recvBuffer[..n];
      ghost var was := recvBuffer[..bufferSize];
      Split(taken, was, n);
      assert data == was[..n] && recvBuffer[n..bufferSize] == was[n..];
      Shift(n);
      taken := taken + data;
    }

    /** What lies behind the first n buffered bytes moves to the front. */
    method Shift(n: nat)
      requires n <= bufferSize <= recvBuffer.Length
      modifies this`bufferSize, recvBuffer
      ensures bufferSize == old(bufferSize) - n && recvBuffer[..bufferSize] == old(recvBuffer[n..bufferSize])
    {
      if recvBuffer.Length > 1 {
        MoveDown(n);
      }
      bufferSize := bufferSize - n;
    }

    /** memmove of what lies behind the first n buffered bytes. */
    method MoveDown(n: nat)
      requires n <= bufferSize <= recvBuffer.Length
      modifies recvBuffer
      ensures recvBuffer[..bufferSize - n] == old(recvBuffer[n..bufferSize])
    {
      for i := 0 to bufferSize - n
        invariant recvBuffer[..i] == old(recvBuffer[n..n + i])
        invariant recvBuffer[i + n..] == old(recvBuffer[i + n..])
      {
        assert recvBuffer[i + n] == recvBuffer[i + n..][0];
        recvBuffer[i] := recvBuffer[n + i];
      }
    }
  }

  lemma Split(taken: seq<byte>, was: seq<byte>, n: nat)
    requires n <= |was|
    ensures taken + was == (taken + was[..n]) + was[n..] && was == was[..n] + was[n..]
  {
  }
}
