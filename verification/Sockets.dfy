/** Socket as a class: fields updated in place, headers written into the shared IP payload
    buffer, in-flight data kept in a view of the shared stash.  Every method is proved to do
    to the fields and buffers what the function of the same name in SocketModel does to
    their value. */
module Sockets {
  import opened Words
  import opened Buffers
  import opened NetStack
  import opened TcpWire
  import opened SegmentIO
  import M = SocketModel
  import S = SocketShared

  class Socket {
    const host: bool
    const localIP: Ip
    const tx: OffsetBuffer
    const sendBuffer: OffsetBuffer
    const stash: OffsetBuffer
    const maxSegmentSize: word

    var remoteIP: Ip
    var localPort: word
    var remotePort: word
    var timeout: nat
    var state: bv8
    var localSeq: Seq32
    var remoteSeq: Seq32
    var remoteMSS: nat
    var remoteWindow: nat
    var stateTime: nat
    var attempts: byte
    var lastDataLength: nat

    // the application
    var script: seq<M.Call>
    var accept: bool
    var window: word

    // what an observer sees
    ghost var out: seq<M.Segment>
    ghost var sent: seq<byte>
    ghost var accepted: seq<byte>
    ghost var edges: seq<(bv8, bv8)>

    /** `tx` is the IP handler's payload buffer, `sendBuffer` the part of it after the TCP
        header, and the stash a view of other memory that fits behind a header. */
    ghost predicate Valid()
      reads tx, tx.Repr, sendBuffer, sendBuffer.Repr, stash, stash.Repr
    {
      && tx.Valid() && sendBuffer.Valid() && stash.Valid()
      && tx.root.bytes != stash.root.bytes
      && sendBuffer.root == tx.root && sendBuffer.base == tx.base + TCP_HEADER
      && TCP_HEADER + sendBuffer.length == tx.length
      && TCP_HEADER + 4 <= tx.length && TCP_HEADER + stash.length <= tx.length
    }

    ghost function Value(): (s: M.Sock)
      requires Valid()
      reads this, tx, tx.Repr, sendBuffer, sendBuffer.Repr, stash, stash.Repr, tx.root.bytes, stash.root.bytes
      ensures s.host == host && s.state == state && s.localSeq == localSeq && s.remoteSeq == remoteSeq
      ensures s.stateTime == stateTime && s.timeout == timeout
      ensures s.script == script && s.accept == accept && s.window == window && s.lastDataLength == lastDataLength
      ensures s.staleWords == tx.Shown()[12] / 16 && s.stash == stash.Shown()
    {
      M.Sock(host, timeout, state, localSeq, remoteSeq, remoteMSS, remoteWindow, stateTime, attempts,
             lastDataLength, stash.Shown(), tx.Shown()[12] / 16, script, accept, window, out, sent, accepted, edges)
    }

    constructor (host: bool, localIP: Ip, tx: OffsetBuffer, stash: OffsetBuffer, maxSegmentSize: word,
                 localSeq: Seq32)
      requires tx.Valid() && stash.Valid() && tx.root.bytes != stash.root.bytes
      requires TCP_HEADER + 4 <= tx.length && TCP_HEADER + stash.length <= tx.length
      ensures Valid() && this.tx == tx && this.stash == stash && this.host == host
      ensures state == M.Idle(Value()) && out == [] && sent == [] && accepted == [] && edges == []
      ensures attempts == 0 && lastDataLength == 0 && timeout == 0
      ensures fresh(sendBuffer)
    {
      this.host, this.localIP, this.tx, this.stash := host, localIP, tx, stash;
      this.maxSegmentSize, this.localSeq := maxSegmentSize, localSeq;
      sendBuffer := new OffsetBuffer(View(tx), TCP_HEADER, 0);
      remoteIP, localPort, remotePort, timeout := [0, 0, 0, 0], 0, 0, 0;
      state := if host then M.LISTEN else M.CLOSED;
      remoteSeq, remoteMSS, remoteWindow, stateTime, attempts, lastDataLength := 0, 0, 0, 0, 0, 0;
      script, accept, window := [], false, 0;
      out, sent, accepted, edges := [], [], [], [];
    }

    /** No other part of the shared stash is touched. */
    twostate predicate Framed()
      reads stash, stash.root.bytes
    {
      Outside(stash) == old(Outside(stash))
    }

    /** Neither are the addresses of the connection. */
    twostate predicate Addressed()
      reads this
    {
      remoteIP == old(remoteIP) && localPort == old(localPort) && remotePort == old(remotePort)
    }

    // -------------------------------------------------------------- sending

    /** The header of one segment goes into the buffer and the segment out. */
    method Transmit(control: bv8, q: Seq32, a: Seq32, length: nat)
      requires Valid() && TCP_HEADER + length <= tx.length
      requires M.Has(control, M.SYN) ==> length == 0
      modifies this`out, tx.root.bytes
      ensures Valid() && Framed() && Addressed()
      ensures OnWire(tx.Shown(), control, length, localPort, remotePort, maxSegmentSize, localIP, remoteIP)
      ensures SumsUp(tx.Shown()[..SegmentSize(control, length)], localIP, remoteIP)
      ensures Numbered(tx.Shown(), q, a, control, window)
      ensures Value() == M.Emit(old(Value()),
        M.Segment(control, q, a, window, Lead(old(tx.Shown()), control) / 16,
                  old(tx.Shown())[TCP_HEADER..TCP_HEADER + length]))
    {
      hide OnWire, Numbered, SumsUp, M.Has, Emitted, Lead, OffsetBuffer.Valid;
      WriteSegment(tx, localPort, remotePort, q, a, control, window, maxSegmentSize, length, localIP, remoteIP);
      OnWireSums(tx.Shown(), control, length, localPort, remotePort, maxSegmentSize, localIP, remoteIP);
      out := out + [Emitted(tx.Shown(), length)];
    }

    /** The bookkeeping of sendSegment. */
    method Advance(control: bv8, length: nat)
      requires Valid()
      modifies this`state, this`localSeq, this`lastDataLength
      ensures Valid() && Framed() && Addressed()
      ensures Value() == Advanced(old(Value()), control, length)
    {
      hide M.Has, OffsetBuffer.Valid, OffsetBuffer.Shown, Outside, Add32;
      if M.Has(control, M.SYN) {
        localSeq := Add32(localSeq, 1);
      } else if M.Has(control, M.FIN) {
        localSeq := Add32(localSeq, 1);
      } else if length > 0 {
        state := state | M.AWAITING_ACK;
        lastDataLength := length;
        localSeq := Add32(localSeq, length);
      }
    }

    method SendSegment(control: bv8, length: nat, seqNo: Seq32, ackNo: Seq32)
      requires Valid() && TCP_HEADER + length <= tx.length
      requires M.Has(control, M.SYN) || M.Has(control, M.FIN) ==> length == 0
      modifies this`state, this`localSeq, this`lastDataLength, this`out, tx.root.bytes
      ensures Valid() && Framed() && Addressed()
      ensures Value() ==
        M.SendSegment(old(Value()), control, old(tx.Shown())[TCP_HEADER..TCP_HEADER + length], seqNo, ackNo)
      ensures OnWire(tx.Shown(), control, length, localPort, remotePort, maxSegmentSize, localIP, remoteIP)
      ensures SumsUp(tx.Shown()[..SegmentSize(control, length)], localIP, remoteIP)
      ensures var reset := M.Has(control, M.RST);
        Numbered(tx.Shown(), if reset then seqNo else old(localSeq), if reset then ackNo else old(remoteSeq),
                 control, window)
    {
      hide OnWire, Numbered, SumsUp, M.Has, OffsetBuffer.Valid, Value, Advanced, M.SendSegment, Lead;
      var q := if M.Has(control, M.RST) then seqNo else localSeq;
      var a := if M.Has(control, M.RST) then ackNo else remoteSeq;
      SendIsEmit(Value(), control, tx.Shown(), length, seqNo, ackNo);
      Advance(control, length);
      Transmit(control, q, a, length);
    }

    method SendEmpty(control: bv8, seqNo: Seq32, ackNo: Seq32)
      requires Valid()
      modifies this`state, this`localSeq, this`lastDataLength, this`out, tx.root.bytes
      ensures Valid() && Framed() && Addressed()
      ensures Value() == M.SendSegment(old(Value()), control, [], seqNo, ackNo)
    {
      hide Value, Outside, OffsetBuffer.Valid, OffsetBuffer.Shown, M.SendSegment, OnWire, Numbered, SumsUp;
      assert tx.Shown()[TCP_HEADER..TCP_HEADER + 0] == [];
      SendSegment(control, 0, seqNo, ackNo);
    }

    /** Keeps a copy of the data in the stash in case it must be sent again. */
    method KeepCopy(length: nat)
      requires Valid() && 1 <= length <= stash.length
      modifies this`attempts, this`sent, stash.root.bytes
      ensures Valid() && Framed() && Addressed()
      ensures var v, data := old(Value()), old(sendBuffer.Shown())[..length];
        Value() == v.(attempts := 1, stash := data + v.stash[length..], sent := v.sent + data)
    {
      hide SameOutside, Outside, OffsetBuffer.Valid, OffsetBuffer.Shown;
      attempts := 1;
      CopyView(sendBuffer, stash, length);
      sent := sent + sendBuffer.Shown()[..length];
    }

    method ReadyToSend() returns (ready: bool)
      requires Valid()
      ensures ready == M.ReadyToSend(Value())
    {
      ready := M.Low(state) == M.ESTABLISHED && state & 0xF0 != M.AWAITING_ACK;
    }

    /** send(length): sends what lies in the send buffer; more than it holds is refused. */
    method SendBuffered(length: nat, now: nat) returns (ok: bool)
      requires Valid()
      modifies this, tx.root.bytes, stash.root.bytes
      ensures Valid() && Framed() && Addressed() && script == old(script)
      ensures length > old(sendBuffer.length) ==> !ok && Value() == old(Value())
      ensures length <= old(sendBuffer.length) ==>
        && Value() == M.DoSend(old(Value()), old(sendBuffer.Shown())[..length], now)
        && ok == (length == 0 || (M.ReadyToSend(old(Value())) && length <= M.MaxSendPayload(old(Value()))))
    {
      hide Value, Outside, OffsetBuffer.Valid, OffsetBuffer.Shown, M.ReadyToSend, M.MaxSendPayload, Launched;
      if length <= sendBuffer.length {
        LaunchIsSend(Value(), sendBuffer.Shown()[..length], now);
      }
      if length == 0 {
        return true;
      }
      var ready := ReadyToSend();
      var max := MaxSendPayload();
      if !ready || length > max {
        return false;
      }
      Launch(length, now);
      ok := true;
    }

    lemma DataInBuffer(length: nat)
      requires Valid() && length <= sendBuffer.length
      ensures sendBuffer.Shown()[..length] == tx.Shown()[TCP_HEADER..TCP_HEADER + length]
    {
    }

    method Launch(length: nat, now: nat)
      requires Valid() && 1 <= length <= stash.length
      modifies this`attempts, this`sent, this`state, this`localSeq, this`lastDataLength, this`out, this`stateTime
      modifies tx.root.bytes, stash.root.bytes
      ensures Valid() && Framed() && Addressed()
      ensures Value() == Launched(old(Value()), old(sendBuffer.Shown())[..length], now)
    {
      hide Value, Outside, OffsetBuffer.Valid, OffsetBuffer.Shown, M.SendSegment, Sealed, SameOutside;
      DataInBuffer(length);
      KeepCopy(length);
      SendSegment(M.ACK | M.PSH, length, 0, 0);
      Touch(now);
    }

    method Touch(now: nat)
      requires Valid()
      modifies this`stateTime
      ensures Valid() && Framed() && Addressed()
      ensures Value() == old(Value()).(stateTime := now)
    {
      hide OffsetBuffer.Valid, OffsetBuffer.Shown, Outside;
      stateTime := now;
    }

    /** send(data, length). */
    method Send(data: seq<byte>, now: nat) returns (ok: bool)
      requires Valid()
      modifies this, tx.root.bytes, stash.root.bytes
      ensures Valid() && Framed() && Addressed()
      ensures Value() == M.DoSend(old(Value()), data, now)
      ensures script == old(script)
      ensures ok == (|data| <= sendBuffer.length &&
                     (data == [] || (M.ReadyToSend(old(Value())) && |data| <= M.MaxSendPayload(old(Value())))))
    {
      hide Value, Outside, OffsetBuffer.Valid, OffsetBuffer.Shown, Launched, M.DoSend, M.ReadyToSend;
      if |data| > sendBuffer.length {
        LaunchIsSend(Value(), data, now);
        return false;
      }
      Fill(data);
      ok := SendBuffered(|data|, now);
    }

    method Fill(data: seq<byte>)
      requires Valid() && |data| <= sendBuffer.length
      modifies tx.root.bytes
      ensures Valid() && Framed() && Addressed()
      ensures Value() == old(Value()) && sendBuffer.Shown()[..|data|] == data
    {
      hide OffsetBuffer.Valid, SameOutside;
      ghost var m := tx.root.bytes[..];
      WriteAt(sendBuffer, 0, data);
      HeaderKept(m, tx.root.bytes[..], tx.base, tx.length);
      assert tx.Shown() == tx.root.bytes[..][tx.base..tx.base + tx.length];
    }

    /** resendData's copy from the stash back into the send buffer. */
    method Fetch(n: nat)
      requires Valid() && 1 <= n <= stash.length
      modifies tx.root.bytes
      ensures Valid() && Framed() && Addressed()
      ensures Value() == old(Value()) && tx.Shown()[TCP_HEADER..TCP_HEADER + n] == stash.Shown()[..n]
    {
      hide OffsetBuffer.Valid, SameOutside;
      ghost var m := tx.root.bytes[..];
      CopyView(stash, sendBuffer, n);
      HeaderKept(m, tx.root.bytes[..], tx.base, tx.length);
      assert tx.Shown() == tx.root.bytes[..][tx.base..tx.base + tx.length];
      assert tx.Shown()[TCP_HEADER..TCP_HEADER + n] == sendBuffer.Shown()[..n];
    }

    method Rewind(n: nat)
      requires Valid()
      modifies this`localSeq
      ensures Valid() && Framed() && Addressed()
      ensures Value() == old(Value()).(localSeq := Sub32(old(Value()).localSeq, n))
    {
      hide OffsetBuffer.Valid, OffsetBuffer.Shown, Outside;
      localSeq := Sub32(localSeq, n);
    }

    /** Sends the data in the stash again, under its old sequence number. */
    method ResendData() returns (ok: bool)
      requires Valid() && 1 <= lastDataLength
      modifies this, tx.root.bytes
      ensures Valid() && Framed() && Addressed()
      ensures ok == (old(lastDataLength) <= stash.length)
      ensures Value() ==
        if ok then M.ResendData(old(Value()))
        else old(Value()).(localSeq := Sub32(old(Value()).localSeq, old(lastDataLength)))
    {
      hide Value, Outside, OffsetBuffer.Valid, OffsetBuffer.Shown, M.SendSegment, OnWire, Numbered, SumsUp;
      ghost var s := Value();
      var n := lastDataLength;
      Rewind(n);
      if n > stash.length {
        return false;
      }
      Fetch(n);
      SendSegment(M.ACK, n, 0, 0);
      return true;
    }

    /** The segment of reset(). */
    method EmitReset(seqNo: Seq32, ackNo: Seq32)
      requires Valid()
      modifies this`state, this`localSeq, this`lastDataLength, this`out, tx.root.bytes
      ensures Valid() && Framed() && Addressed()
      ensures Value() == M.EmitReset(old(Value()), seqNo, ackNo)
    {
      hide Value, Outside, OffsetBuffer.Valid, OffsetBuffer.Shown, M.SendSegment, OnWire, Numbered, SumsUp;
      if ackNo == remoteSeq {
        SendEmpty(M.RST | M.ACK, seqNo, ackNo);
      } else {
        SendEmpty(M.RST, seqNo, ackNo);
      }
    }

    // --------------------------------------------- state changes and callbacks

    method PutState(next: bv8, now: nat)
      requires Valid()
      modifies this`edges, this`state, this`stateTime
      ensures Valid() && Framed() && Addressed()
      ensures Value() == M.Put(old(Value()), next, now)
    {
      hide OffsetBuffer.Valid, OffsetBuffer.Shown, Outside;
      edges := edges + [(M.Low(state), next)];
      state := next;
      stateTime := now;
    }

    method NextCall()
      requires Valid() && script != []
      modifies this`script
      ensures Valid() && Framed() && Addressed()
      ensures Value() == M.Pop(old(Value())) && |script| == |old(script)| - 1
    {
      hide OffsetBuffer.Valid, OffsetBuffer.Shown, Outside;
      script := script[1..];
    }

    /** Another user of the IP payload buffer leaves its own byte 12 in it. */
    method OtherWrite(words: M.nibble)
      requires Valid()
      modifies tx.root.bytes
      ensures Valid() && Framed() && Addressed()
      ensures Value() == M.Overwritten(old(Value()), words)
    {
      hide Outside, OffsetBuffer.Valid, SameOutside;
      WriteAt(tx, 12, [16 * words]);
    }

    /** A callback that is over: what it returned, or a refusal when it is not there. */
    method EndCallback()
      requires Valid() && (script == [] || script[0].Done?)
      modifies this`script, this`accept, this`window
      ensures Valid() && Framed() && Addressed()
      ensures Value() == if old(script) == [] then M.Exhausted(old(Value())) else M.Return(old(Value()))
    {
      hide OffsetBuffer.Valid, OffsetBuffer.Shown, Outside;
      if script == [] {
        accept := false;
      } else {
        script, accept, window := script[1..], script[0].accept, script[0].window;
      }
    }

    /** One virtual callback: the application runs, and may call the socket. */
    method Fire(now: nat)
      requires Valid()
      modifies this, tx.root.bytes, stash.root.bytes
      ensures Valid() && Framed() && Addressed()
      ensures Value() == M.Fire(old(Value()), now)
      decreases |script|, 0
    {
      hide Value, Outside, OffsetBuffer.Valid, OffsetBuffer.Shown, M.DoSend, M.DoForceClose, M.DoClose, M.Pop;
      hide M.Return, M.Exhausted, M.Overwritten;
      if script == [] || script[0].Done? {
        EndCallback();
      } else {
        var call := script[0];
        NextCall();
        match call {
          case OtherWrite(words) => OtherWrite(words);
          case Send(data) => var _ := Send(data, now);
          case ForceClose => ForceClose(now);
          case Close => Close(now);
        }
        Fire(now);
      }
    }

    method SetState(next: bv8, now: nat)
      requires Valid()
      modifies this, tx.root.bytes, stash.root.bytes
      ensures Valid() && Framed() && Addressed()
      ensures Value() == M.SetState(old(Value()), next, now)
      decreases |script|, 1
    {
      hide Value, Outside, OffsetBuffer.Valid, OffsetBuffer.Shown, M.Fire, M.Put;
      PutState(next, now);
      if next == M.CLOSED {
        Fire(now);
      } else if next == M.ESTABLISHED {
        Fire(now);
        Fire(now);
      }
    }

    method Reset(seqNo: Seq32, ackNo: Seq32, now: nat)
      requires Valid()
      modifies this, tx.root.bytes, stash.root.bytes
      ensures Valid() && Framed() && Addressed()
      ensures Value() == M.Reset(old(Value()), seqNo, ackNo, now)
      decreases |script|, 1
    {
      hide Value, Outside, OffsetBuffer.Valid, OffsetBuffer.Shown, M.Fire, M.EmitReset;
      EmitReset(seqNo, ackNo);
      Fire(now);
    }

    method ForceClose(now: nat)
      requires Valid()
      modifies this, tx.root.bytes, stash.root.bytes
      ensures Valid() && Framed() && Addressed()
      ensures Value() == M.DoForceClose(old(Value()), now)
      decreases |script|, 2
    {
      hide Value, Outside, OffsetBuffer.Valid, OffsetBuffer.Shown, M.Reset, M.SetState;
      if state != M.TIME_WAIT {
        Reset(localSeq, remoteSeq, now);
      }
      SetState(if host then M.LISTEN else M.CLOSED, now);
    }

    method LocalClosed() returns (closed: bool)
      requires Valid()
      ensures closed == M.LocalClosed(Value())
    {
      closed := state == M.FIN_WAIT_1 || state == M.FIN_WAIT_2 || state == M.CLOSING || state == M.LAST_ACK ||
        state == M.TIME_WAIT || state == M.LISTEN || state == M.CLOSED;
    }

    method FirstAttempt()
      requires Valid()
      modifies this`attempts
      ensures Valid() && Framed() && Addressed()
      ensures Value() == old(Value()).(attempts := 1)
    {
      hide OffsetBuffer.Valid, OffsetBuffer.Shown, Outside;
      attempts := 1;
    }

    /** close() up to its callback. */
    method SendFin(now: nat)
      requires Valid()
      modifies this, tx.root.bytes, stash.root.bytes
      ensures Valid() && Framed() && Addressed()
      ensures Value() == M.FinStep(old(Value()), now)
      ensures |script| <= |old(script)|
    {
      hide Value, Outside, OffsetBuffer.Valid, OffsetBuffer.Shown, M.Put, M.SendSegment, OnWire, Numbered, SumsUp;
      SendEmpty(M.FIN | M.ACK, 0, 0);
      FirstAttempt();
      if M.Low(state) == M.ESTABLISHED || state == M.SYN_RECEIVED {
        PutState(M.FIN_WAIT_1, now);
      } else if state == M.CLOSE_WAIT {
        PutState(M.LAST_ACK, now);
      }
    }

    method Close(now: nat)
      requires Valid()
      modifies this, tx.root.bytes, stash.root.bytes
      ensures Valid() && Framed() && Addressed()
      ensures Value() == M.DoClose(old(Value()), now)
      decreases |script|, 1
    {
      hide Value, Outside, OffsetBuffer.Valid, OffsetBuffer.Shown, M.Fire, M.FinStep, M.LocalClosed;
      var closed := LocalClosed();
      if !closed {
        SendFin(now);
        Fire(now);
      }
    }

    // ---------------------------------------------------------- entry points

    /** connect() with the local port the IP handler gives out. */
    method Connect(port: word, now: nat) returns (ok: bool)
      requires Valid()
      modifies this, tx.root.bytes, stash.root.bytes
      ensures Valid() && Framed() && remoteIP == old(remoteIP) && remotePort == old(remotePort)
      ensures Value() == M.Connect(old(Value()), now)
      ensures ok == (old(state) == M.CLOSED) && localPort == if ok then port else old(localPort)
    {
      hide Value, Outside, OffsetBuffer.Valid, OffsetBuffer.Shown, M.SetState, M.SendSegment;
      if state != M.CLOSED {
        return false;
      }
      TakePort(port);
      SendEmpty(M.SYN, 0, 0);
      FirstAttempt();
      SetState(M.SYN_SENT, now);
      return true;
    }

    method TakePort(port: word)
      requires Valid()
      modifies this`localPort
      ensures Valid() && Framed() && localPort == port && remoteIP == old(remoteIP) && remotePort == old(remotePort)
      ensures Value() == old(Value())
    {
      hide OffsetBuffer.Valid, OffsetBuffer.Shown, Outside;
      localPort := port;
    }

    /** checkState(), called by the timer. */
    method CheckState(now: nat)
      requires Valid() && S.Holds(Value(), stash.length)
      modifies this, tx.root.bytes, stash.root.bytes
      ensures Valid() && Framed() && Addressed()
      ensures Value() == M.CheckState(old(Value()), now) && S.Holds(Value(), stash.length)
    {
      hide Value, Outside, OffsetBuffer.Valid, OffsetBuffer.Shown, M.DoClose, M.DoForceClose, M.Retry;
      hide M.LocalClosed, S.Holds;
      ghost var s := Value();
      S.TickHolds(s, now, stash.length);
      S.CallbacksHold(s, now, stash.length);
      if state == M.CLOSED || state == M.LISTEN {
        return;
      }
      var elapsed := Sub32(now, stateTime);
      if timeout > 0 && elapsed > timeout {
        var closed := LocalClosed();
        if !closed {
          Close(now);
          return;
        }
        ForceClose(now);
      }
      if state == M.ESTABLISHED || elapsed < M.ACK_WAIT_DURATION {
        return;
      }
      Retry(elapsed, now);
    }

    /** The branches of checkState that wait for an answer or for time to pass. */
    method Retry(elapsed: nat, now: nat)
      requires Valid() && S.Holds(Value(), stash.length)
      modifies this, tx.root.bytes, stash.root.bytes
      ensures Valid() && Framed() && Addressed()
      ensures Value() == M.Retry(old(Value()), elapsed, now)
    {
      hide Value, Outside, OffsetBuffer.Valid, OffsetBuffer.Shown, M.DoForceClose, M.Resend, M.SetState, S.WentOut;
      if state == M.ESTABLISHED | M.AWAITING_ACK || state == M.SYN_SENT || state == M.SYN_RECEIVED ||
         state == M.FIN_WAIT_1 || state == M.CLOSING
      {
        var tried := CountAttempt();
        if tried > 10 {
          ForceClose(now);
        } else {
          Resend(now);
        }
      } else if elapsed >= M.TIME_WAIT_DURATION && state == M.TIME_WAIT {
        SetState(if host then M.LISTEN else M.CLOSED, now);
      }
    }

    method CountAttempt() returns (tried: nat)
      requires Valid()
      modifies this`attempts
      ensures Valid() && Framed() && Addressed()
      ensures tried == old(Value()).attempts
      ensures Value() == old(Value()).(attempts := (tried + 1) % 256)
    {
      hide OffsetBuffer.Valid, OffsetBuffer.Shown, Outside;
      tried := attempts;
      attempts := (attempts + 1) % 256;
    }

    method Resend(now: nat)
      requires Valid() && (state == M.ESTABLISHED | M.AWAITING_ACK ==> 1 <= lastDataLength)
      requires M.Retries(state)
      modifies this, tx.root.bytes, stash.root.bytes
      ensures Valid() && Framed() && Addressed()
      ensures Value() == M.Resend(old(Value()), now)
    {
      hide Value, Outside, OffsetBuffer.Valid, OffsetBuffer.Shown, M.DoForceClose, M.ResendData, M.SendSegment;
      if state == M.ESTABLISHED | M.AWAITING_ACK {
        var ok := ResendData();
        if !ok {
          ForceClose(now);
        }
      } else {
        Rewind(1);
        if state == M.SYN_SENT {
          SendEmpty(M.SYN, 0, 0);
        } else if state == M.SYN_RECEIVED {
          SendEmpty(M.SYN | M.ACK, 0, 0);
        } else {
          SendEmpty(M.FIN | M.ACK, 0, 0);
        }
      }
    }

    // -------------------------------------------------------------- arrivals

    /** handleSegment: a segment from the IP layer, given the source address and a view of its
        bytes. */
    method HandleSegment(source: Ip, buf: OffsetBuffer, now: nat)
      requires Valid() && buf.Valid()
      modifies this, tx.root.bytes, stash.root.bytes
      ensures Valid() && Framed() && localPort == old(localPort)
      ensures remoteIP == if |old(buf.Shown())| < 16 then old(remoteIP) else old(PeerOf(source, buf.Shown()))
      ensures remotePort == if old(Accepts(source, buf.Shown())) then Word(old(buf.Shown()), 0) else old(remotePort)
      ensures var d := old(buf.Shown());
        if |d| < 16 then Value() == old(Value())
        else Value() == M.HandleSegment(old(Value()), Received(d, localIP, old(PeerOf(source, d))), now)
      ensures var d := old(buf.Shown());
        |d| >= 16 && !SumsUp(d, old(PeerOf(source, d)), localIP) ==>
          Value() == old(Value()).(remoteWindow := Word(d, 14))
      ensures var d := old(buf.Shown()); var syn := |d| >= 16 && old(state) == 1 && d[13] as bv8 == 2;
        && remoteIP == (if syn then source else old(remoteIP))
        && remotePort == (if syn && |d| >= 18 && Word(d, 16) != 0xFFFF && SumsUp(d, source, localIP) then Word(d, 0)
                          else old(remotePort))
    {
      hide Value, Outside, OffsetBuffer.Valid, OffsetBuffer.Shown, M.HandleSegment, Received, SumsUp, Word;
      if buf.length >= 16 {
        ReceivedFlags(buf.Shown(), localIP, PeerOf(source, buf.Shown()));
        assert Flags(buf.Shown()[13]) == buf.Shown()[13] as bv8;
        ValidIff(buf.Shown(), localIP, source);
        if !SumsUp(buf.Shown(), PeerOf(source, buf.Shown()), localIP) {
          DamagedBringsWindow(Value(), buf.Shown(), localIP, PeerOf(source, buf.Shown()), now);
        }
        var g, port := ReadSegment(source, buf);
        Handle(g, port, now);
      }
    }

    /** What handleSegment reads before it acts. */
    method ReadSegment(source: Ip, buf: OffsetBuffer) returns (g: M.Arrival, port: word)
      requires Valid() && buf.Valid() && 16 <= buf.length
      modifies this`remoteIP
      ensures Valid() && Framed() && g.seqNo < MOD32 && g.ackNo < MOD32
      ensures remoteIP == old(PeerOf(source, buf.Shown()))
      ensures localPort == old(localPort) && remotePort == old(remotePort)
      ensures port == Word(old(buf.Shown()), 0)
      ensures Value() == old(Value())
      ensures g == Received(old(buf.Shown()), localIP, old(PeerOf(source, buf.Shown())))
    {
      hide Value, Outside, OffsetBuffer.Valid, OffsetBuffer.Shown, Received, Flags;
      var b := ReadByte(buf, 13);
      var peer := if state == M.LISTEN && Flags(b) == M.SYN then source else remoteIP;
      g := ReadArrival(buf, localIP, peer);
      port := ReadNet16(buf, 0);
      TakePeer(peer);
    }

    /** A connection request, intact, at a listening socket. */
    predicate Accepts(source: Ip, d: seq<byte>)
      reads this
    {
      16 <= |d| && state == M.LISTEN && Flags(d[13]) == M.SYN && Received(d, localIP, source).valid
    }

    /** Whose address the checksum is computed with: a listening socket has no peer yet. */
    function PeerOf(source: Ip, d: seq<byte>): Ip
      requires 16 <= |d|
      reads this
    {
      if state == M.LISTEN && Flags(d[13]) == M.SYN then source else remoteIP
    }

    method TakePeer(source: Ip)
      requires Valid()
      modifies this`remoteIP
      ensures Valid() && Framed() && localPort == old(localPort) && remotePort == old(remotePort)
      ensures Value() == old(Value()) && remoteIP == source
    {
      hide OffsetBuffer.Valid, OffsetBuffer.Shown, Outside;
      remoteIP := source;
    }

    method TakeWindow(window: nat)
      requires Valid()
      modifies this`remoteWindow
      ensures Valid() && Framed() && Addressed()
      ensures Value() == old(Value()).(remoteWindow := window)
    {
      hide OffsetBuffer.Valid, OffsetBuffer.Shown, Outside;
      remoteWindow := window;
    }

    method TakeRemotePort(port: word)
      requires Valid()
      modifies this`remotePort
      ensures Valid() && Framed() && remotePort == port && remoteIP == old(remoteIP) && localPort == old(localPort)
      ensures Value() == old(Value())
    {
      hide OffsetBuffer.Valid, OffsetBuffer.Shown, Outside;
      remotePort := port;
    }

    method Learn(g: M.Arrival)
      requires Valid()
      modifies this`remoteSeq, this`remoteMSS
      ensures Valid() && Framed() && Addressed()
      ensures Value() == M.Learn(old(Value()), g)
    {
      hide OffsetBuffer.Valid, OffsetBuffer.Shown, Outside;
      remoteSeq := Add32(g.seqNo, 1);
      if g.words == 6 && g.mss.Some? {
        remoteMSS := g.mss.value;
      }
    }

    method Handle(g: M.Arrival, port: word, now: nat)
      requires Valid() && g.seqNo < MOD32 && g.ackNo < MOD32
      modifies this, tx.root.bytes, stash.root.bytes
      ensures Valid() && Framed() && remoteIP == old(remoteIP) && localPort == old(localPort)
      ensures remotePort == if g.valid && old(state) == M.LISTEN && g.opt == M.SYN then port else old(remotePort)
      ensures Value() == M.HandleSegment(old(Value()), g, now)
    {
      hide Value, Outside, OffsetBuffer.Valid, OffsetBuffer.Shown, M.Has, M.SendSegment, M.Unacceptable, M.Refused;
      hide M.Learn, M.SetState, M.HandleEstablished, M.Acknowledged, M.DoForceClose, M.Low;
      TakeWindow(g.window);
      if !g.valid {
        return;
      }
      if state == M.LISTEN && g.opt == M.SYN {
        SynIsLookedAt(Value(), g);
      }
      var handled := HandleUnacceptable(g, now);
      if handled {
        return;
      }
      if state == M.LISTEN && g.opt == M.SYN {
        TakeRemotePort(port);
        Learn(g);
        SendEmpty(M.SYN | M.ACK, 0, 0);
        SetState(M.SYN_RECEIVED, now);
        FirstAttempt();
      } else if state == M.SYN_SENT && g.opt == M.SYN {
        Learn(g);
        SetState(M.SYN_RECEIVED, now);
        SendEmpty(M.ACK, 0, 0);
      } else if state == M.SYN_SENT && g.opt == M.ACK | M.SYN && g.ackNo == localSeq {
        Learn(g);
        SendEmpty(M.ACK, 0, 0);
        SetState(M.ESTABLISHED, now);
      } else if M.Low(state) == M.ESTABLISHED {
        HandleEstablished(g, now);
      } else if M.Has(g.opt, M.ACK) && g.ackNo == localSeq {
        Acknowledged(now);
      } else {
        ForceClose(now);
      }
    }

    /** The three cases of section 3.4 of RFC 793 that call for a reset or a bare ACK, and
        incoming resets. */
    method HandleUnacceptable(g: M.Arrival, now: nat) returns (handled: bool)
      requires Valid() && g.seqNo < MOD32 && g.ackNo < MOD32
      modifies this, tx.root.bytes, stash.root.bytes
      ensures Valid() && Framed() && Addressed()
      ensures handled == M.Unacceptable(old(Value()), g)
      ensures Value() == if handled then M.Refused(old(Value()), g, now) else old(Value())
    {
      hide Value, Outside, OffsetBuffer.Valid, OffsetBuffer.Shown, M.Has, M.Refuse, M.Reset, M.SendSegment;
      hide M.HandleReset;
      handled := true;
      if (state == M.CLOSED && !M.Has(g.opt, M.RST)) ||
         (state == M.LISTEN && !M.Has(g.opt, M.SYN) && !M.Has(g.opt, M.RST))
      {
        Refuse(g, now);
      } else if M.Unsynchronized(state) && M.Has(g.opt, M.ACK) && g.ackNo > localSeq {
        Reset(g.ackNo, 0, now);
      } else if M.Synchronized(state) && ((M.Has(g.opt, M.ACK) && g.ackNo > localSeq) || g.seqNo > remoteSeq) {
        SendEmpty(M.ACK, 0, 0);
      } else if M.Has(g.opt, M.RST) {
        HandleReset(g, now);
      } else {
        handled := false;
      }
    }

    method Refuse(g: M.Arrival, now: nat)
      requires Valid() && g.seqNo < MOD32 && g.ackNo < MOD32
      modifies this, tx.root.bytes, stash.root.bytes
      ensures Valid() && Framed() && Addressed()
      ensures Value() == M.Refuse(old(Value()), g, now)
    {
      hide Value, Outside, OffsetBuffer.Valid, OffsetBuffer.Shown, M.Has, M.Reset;
      if M.Has(g.opt, M.ACK) {
        Reset(g.ackNo, 0, now);
      } else {
        Reset(0, Add32(g.seqNo, g.size), now);
      }
    }

    /** closed(). */
    method Abandon(now: nat)
      requires Valid()
      modifies this, tx.root.bytes, stash.root.bytes
      ensures Valid() && Framed() && Addressed()
      ensures Value() == M.Abandon(old(Value()), now)
    {
      hide Value, Outside, OffsetBuffer.Valid, OffsetBuffer.Shown, M.SetState;
      SetState(if host then M.LISTEN else M.CLOSED, now);
    }

    method HandleReset(g: M.Arrival, now: nat)
      requires Valid()
      modifies this, tx.root.bytes, stash.root.bytes
      ensures Valid() && Framed() && Addressed()
      ensures Value() == M.HandleReset(old(Value()), g, now)
    {
      hide Value, Outside, OffsetBuffer.Valid, OffsetBuffer.Shown, M.Abandon, M.Fire;
      if state == M.SYN_SENT && g.ackNo == localSeq {
        Abandon(now);
        Fire(now);
      } else if remoteSeq == g.seqNo && state != M.LISTEN {
        var quiet := state == M.SYN_RECEIVED;
        Abandon(now);
        if !quiet {
          Fire(now);
        }
      }
    }

    method Acknowledged(now: nat)
      requires Valid()
      modifies this, tx.root.bytes, stash.root.bytes
      ensures Valid() && Framed() && Addressed()
      ensures Value() == M.Acknowledged(old(Value()), now)
    {
      hide Value, Outside, OffsetBuffer.Valid, OffsetBuffer.Shown, M.Abandon, M.SetState;
      if state == M.SYN_RECEIVED {
        SetState(M.ESTABLISHED, now);
      } else if state == M.FIN_WAIT_1 {
        SetState(M.FIN_WAIT_2, now);
      } else if state == M.CLOSING {
        SetState(M.TIME_WAIT, now);
      } else if state == M.LAST_ACK {
        Abandon(now);
      }
    }

    method ClearAwaiting()
      requires Valid()
      modifies this`state
      ensures Valid() && Framed() && Addressed()
      ensures Value() == old(Value()).(state := M.Low(old(Value()).state))
    {
      hide OffsetBuffer.Valid, OffsetBuffer.Shown, Outside, M.Low;
      state := M.Low(state);
    }

    method SetRemoteSeq(x: Seq32)
      requires Valid()
      modifies this`remoteSeq
      ensures Valid() && Framed() && Addressed()
      ensures Value() == old(Value()).(remoteSeq := x)
    {
      hide OffsetBuffer.Valid, OffsetBuffer.Shown, Outside;
      remoteSeq := x;
    }

    method HandleEstablished(g: M.Arrival, now: nat)
      requires Valid()
      modifies this, tx.root.bytes, stash.root.bytes
      ensures Valid() && Framed() && Addressed()
      ensures Value() == M.HandleEstablished(old(Value()), g, now)
    {
      hide Value, Outside, OffsetBuffer.Valid, OffsetBuffer.Shown, M.Has, M.Low, M.Awaiting, M.SendSegment;
      hide M.TakeData, M.TakeFin, M.Fire;
      if !M.Has(g.opt, M.ACK) {
        return;
      }
      var clearAck := g.ackNo == localSeq && M.Awaiting(state);
      if g.seqNo != remoteSeq {
        SendEmpty(M.ACK, 0, 0);
        return;
      }
      if M.PayloadSize(g) > 0 {
        TakeData(g, now);
      }
      if M.Has(g.opt, M.FIN) {
        TakeFin(g, now);
      }
      if clearAck {
        ClearAwaiting();
        Fire(now);
      }
    }

    method TakeData(g: M.Arrival, now: nat)
      requires Valid()
      modifies this, tx.root.bytes, stash.root.bytes
      ensures Valid() && Framed() && Addressed()
      ensures Value() == M.TakeData(old(Value()), g, now)
    {
      hide Value, Outside, OffsetBuffer.Valid, OffsetBuffer.Shown, M.Has, M.SendSegment, M.Offer;
      if M.Has(g.opt, M.FIN) {
        SetRemoteSeq(Add32(remoteSeq, 1));
      }
      if g.recv != [] {
        Offer(g, now);
      }
      SendEmpty(M.ACK, 0, 0);
    }

    method Accept(g: M.Arrival, now: nat)
      requires Valid()
      modifies this`remoteSeq, this`accepted, this`stateTime
      ensures Valid() && Framed() && Addressed()
      ensures var f := old(Value());
        Value() == f.(remoteSeq := Add32(g.seqNo, M.PayloadSize(g)), accepted := f.accepted + g.recv,
                      stateTime := now)
    {
      hide OffsetBuffer.Valid, OffsetBuffer.Shown, Outside;
      remoteSeq := Add32(g.seqNo, M.PayloadSize(g));
      accepted := accepted + g.recv;
      stateTime := now;
    }

    /** onDataReceived. */
    method Offer(g: M.Arrival, now: nat)
      requires Valid()
      modifies this, tx.root.bytes, stash.root.bytes
      ensures Valid() && Framed() && Addressed()
      ensures Value() == M.Offer(old(Value()), g, now)
    {
      hide Value, Outside, OffsetBuffer.Valid, OffsetBuffer.Shown, M.Fire;
      Fire(now);
      if accept {
        Accept(g, now);
      }
    }

    method TakeFin(g: M.Arrival, now: nat)
      requires Valid()
      modifies this, tx.root.bytes, stash.root.bytes
      ensures Valid() && Framed() && Addressed()
      ensures Value() == M.TakeFin(old(Value()), g, now)
    {
      hide Value, Outside, OffsetBuffer.Valid, OffsetBuffer.Shown, M.Fire, M.Has, M.SendSegment, M.SetState, M.Low;
      if M.PayloadSize(g) == 0 {
        SetRemoteSeq(Add32(remoteSeq, 1));
        SendEmpty(M.ACK, 0, 0);
      }
      if state == M.FIN_WAIT_1 {
        SetState(if M.Has(g.opt, M.ACK) && g.ackNo == localSeq then M.TIME_WAIT else M.CLOSING, now);
      } else if state == M.FIN_WAIT_2 {
        SetState(M.TIME_WAIT, now);
      } else if M.Low(state) == M.ESTABLISHED {
        SetState(M.CLOSE_WAIT, now);
      }
      Fire(now);
    }

    method MaxSendPayload() returns (n: nat)
      requires Valid()
      ensures n == M.MaxSendPayload(Value()) <= stash.length
    {
      n := stash.length;
      if remoteWindow < n {
        n := remoteWindow;
      }
      if remoteMSS > 0 && remoteMSS < n {
        n := remoteMSS;
      }
    }
  }

  lemma SynIsLookedAt(s: M.Sock, g: M.Arrival)
    requires s.state == M.LISTEN && g.opt == M.SYN
    ensures !M.Unacceptable(s, g)
  {
  }

  /** A send that is not refused. */
  function Launched(s: M.Sock, data: seq<byte>, now: nat): M.Sock
    requires |data| <= |s.stash|
  {
    M.SendSegment(s.(attempts := 1, stash := data + s.stash[|data|..], sent := s.sent + data), M.ACK | M.PSH, data)
    .(stateTime := now)
  }

  lemma LaunchIsSend(s: M.Sock, data: seq<byte>, now: nat)
    ensures M.DoSend(s, data, now) ==
      if data == [] || !M.ReadyToSend(s) || |data| > M.MaxSendPayload(s) then s else Launched(s, data, now)
  {
  }

  function Advanced(s: M.Sock, control: bv8, length: nat): M.Sock {
    if M.Has(control, M.SYN) || M.Has(control, M.FIN) then s.(localSeq := Add32(s.localSeq, 1))
    else if length > 0 then
      s.(state := s.state | M.AWAITING_ACK, lastDataLength := length, localSeq := Add32(s.localSeq, length))
    else s
  }

  lemma SendIsEmit(s: M.Sock, control: bv8, b: seq<byte>, length: nat, seqNo: nat, ackNo: nat)
    requires 12 < |b| && TCP_HEADER + length <= |b| && s.staleWords == b[12] / 16
    requires M.Has(control, M.SYN) || M.Has(control, M.FIN) ==> length == 0
    ensures var q := if M.Has(control, M.RST) then seqNo else s.localSeq;
      var a := if M.Has(control, M.RST) then ackNo else s.remoteSeq;
      var payload := b[TCP_HEADER..TCP_HEADER + length];
      M.SendSegment(s, control, payload, seqNo, ackNo) ==
        M.Emit(Advanced(s, control, length), M.Segment(control, q, a, s.window, Lead(b, control) / 16, payload))
  {
    hide M.Has;
  }
}
