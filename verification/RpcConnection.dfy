/**
 RpcConnection: the write queue is emptied by partial writes, the read buffer
 is filled by partial reads, and complete frames are handed up.  What the
 kernel answers to each read or write call is given as a list of results.
 */
module RpcConnections {
  import opened Bytes
  import opened Framing
  import opened IoBuffers
  import opened Options
  import opened Sequences

  /** Wrote(n): the kernel has room for n bytes and takes what it is offered up to n. */
  datatype WriteResult = WritePending | WriteError | Wrote(n: nat)

  /** Got(n): the kernel hands over n bytes, or fewer if there are no more or no room. */
  datatype ReadResult = ReadPending | ReadError | Got(n: nat)

  /** However much of wire is read next, the receiving loop will end. */
  ghost predicate SafeInput<M(!new)>(codec: Codec<M>, received: seq<byte>, wire: seq<byte>)
  {
    forall n :: 0 <= n <= |wire| ==> Parseable(codec, received + wire[..n])
  }

  /** The first n answers say that bytes were taken. */
  ghost predicate AllWrote(kernel: seq<WriteResult>, n: nat) {
    n <= |kernel| && forall i :: 0 <= i < n ==> kernel[i].Wrote? && kernel[i].n > 0
  }

  /** With bytes left to write, answer n ends the loop: an error closes, no answer yet waits, zero bytes do neither. */
  ghost predicate EndsWrites(kernel: seq<WriteResult>, n: nat, wasClosed: bool, closed: bool, pending: bool) {
    if n >= |kernel| || kernel[n] == WritePending then closed == wasClosed && pending
    else if kernel[n] == WriteError then closed && !pending
    else kernel[n] == Wrote(0) && closed == wasClosed && !pending
  }

  /** The first n answers hand over bytes. */
  ghost predicate AllGot(kernel: seq<ReadResult>, n: nat) {
    n <= |kernel| && forall i :: 0 <= i < n ==> kernel[i].Got? && kernel[i].n > 0
  }

  class RpcConnection<M(!new)> {
    const codec: Codec<M>
    const readBuf: ReadIOBuffer
    const writeBuf: QueuedWriteIOBuffer

    var writePending: bool  // the socket holds a write callback
    var readPending: bool   // the socket holds a read callback
    var closed: bool        // Close() was called
    var aborted: bool       // CHECK(write_callback_.is_null()) failed in the socket
    var delivered: seq<M>   // the messages dispatched, oldest first

    ghost var accepted: seq<M>  // the messages Append returned true for

    ghost predicate WriteValid()
      reads this, writeBuf
    {
      && writeBuf.Valid()
      && writeBuf.accepted == Stream(codec, accepted)
      && FramesFit(codec, accepted, DEFAULT_MAX_BUFFER_SIZE)
      && (writePending ==> writeBuf.GetSizeToWrite() > 0)
    }

    ghost predicate ReadValid()
      reads this, readBuf, readBuf.base, readBuf.base.realData
    {
      && readBuf.Valid()
      && Parseable(codec, readBuf.received)
      && delivered == Deframe(codec, readBuf.received)
      && readBuf.Contents() == Leftover(codec, readBuf.received)
      && (readPending ==> readBuf.RemainingCapacity() > 0)
    }

    constructor (codec: Codec<M>)
      ensures WriteValid() && ReadValid()
      ensures fresh(readBuf.Repr()) && fresh(writeBuf)
      ensures this.codec == codec
      ensures accepted == [] && delivered == [] && readBuf.received == [] && writeBuf.consumed == 0
      ensures !writePending && !readPending && !closed && !aborted
    {
      this.codec := codec;
      readBuf := new ReadIOBuffer();
      writeBuf := new QueuedWriteIOBuffer();
      writePending, readPending, closed, aborted := false, false, false, false;
      delivered, accepted := [], [];
    }

    // ---- Writing ----

    /** CallMethod and OnServiceDone from the length prefix on. */
    method SendMessage(m: M, kernel: seq<WriteResult>) returns (ok: bool, moved: seq<byte>)
      requires WriteValid() && !closed && !aborted
      modifies this`accepted, this`writePending, this`closed, this`aborted, writeBuf
      ensures WriteValid()
      ensures ok <==> |old(writeBuf.accepted)| - old(writeBuf.consumed) + |Frame(codec, m)|
                      <= DEFAULT_MAX_BUFFER_SIZE
      ensures accepted == if ok then old(accepted) + [m] else old(accepted)
      ensures writeBuf.accepted == old(writeBuf.accepted) + if ok then Frame(codec, m) else []
      ensures writeBuf.IsEmpty() ==> writeBuf.consumed == |writeBuf.accepted|
      ensures writeBuf.consumed == old(writeBuf.consumed) + |moved|
      ensures moved == writeBuf.accepted[old(writeBuf.consumed)..writeBuf.consumed]
      ensures aborted <==> old(writePending)
      ensures aborted || kernel == [] ==> moved == []
      ensures closed ==> WriteError in kernel
      ensures closed || aborted || writePending || writeBuf.IsEmpty() || Wrote(0) in kernel
      ensures !aborted && |writeBuf.accepted| > old(writeBuf.consumed) && kernel != [] && kernel[0] == WriteError ==>
                closed && moved == []
    {
      var data := Frame(codec, m);
      StreamSnoc(codec, accepted, m);
      ok := writeBuf.Append(data);
      if ok {
        accepted := accepted + [m];
      }
      if writePending && writeBuf.GetSizeToWrite() > 0 {
        aborted := true;
        moved := [];
      } else {
        ghost var used;
        moved, used := DoWriteLoop(kernel);
      }
    }

    /**
     Writes until the queue is empty or the kernel gives an answer other than
     that it took some bytes; used counts the answers that said so.
     */
    method DoWriteLoop(kernel: seq<WriteResult>) returns (moved: seq<byte>, ghost used: nat)
      requires WriteValid() && !writePending
      modifies this`writePending, this`closed, writeBuf
      ensures WriteValid()
      ensures writeBuf.accepted == old(writeBuf.accepted)
      ensures writeBuf.consumed == old(writeBuf.consumed) + |moved|
      ensures moved == writeBuf.accepted[old(writeBuf.consumed)..writeBuf.consumed]
      ensures AllWrote(kernel, used) && (used == 0 ==> moved == [])
      ensures writeBuf.IsEmpty() ==> closed == old(closed) && !writePending
      ensures !writeBuf.IsEmpty() ==> EndsWrites(kernel, used, old(closed), closed, writePending)
    {
      moved, used := [], 0;
      var i := 0;
      var ok := true;
      while ok && writeBuf.GetSizeToWrite() > 0
        invariant 0 <= i <= |kernel|
        invariant WriteValid() && !writePending
        invariant writeBuf.accepted == old(writeBuf.accepted)
        invariant writeBuf.consumed == old(writeBuf.consumed) + |moved|
        invariant moved == writeBuf.accepted[old(writeBuf.consumed)..writeBuf.consumed]
        invariant AllWrote(kernel, used) && (used == 0 ==> moved == [])
        invariant if ok then closed == old(closed) && used == i
                  else closed && used < |kernel| && kernel[used] == WriteError && writeBuf.GetSizeToWrite() > 0
        decreases |kernel| - i, ok
      {
        if i == |kernel| || kernel[i].WritePending? {
          writePending := true;
          return;
        }
        match kernel[i] {
          case WriteError =>
            ok := HandleWriteResult(-1);
          case Wrote(room) =>
            if room == 0 {
              return;
            }
            ghost var start := writeBuf.consumed;
            var chunk := WriteSome(room);
            ExtendSlice(writeBuf.accepted, old(writeBuf.consumed), start, chunk);
            moved := moved + chunk;
            used := used + 1;
        }
        i := i + 1;
      }
    }

    /** The kernel takes what it has room for and HandleWriteResult is told how much. */
    method WriteSome(room: nat) returns (chunk: seq<byte>)
      requires WriteValid() && !writePending && writeBuf.GetSizeToWrite() > 0
      modifies this`closed, writeBuf
      ensures WriteValid() && closed == old(closed)
      ensures |chunk| == Min(room, old(writeBuf.GetSizeToWrite()))
      ensures writeBuf.accepted == old(writeBuf.accepted)
      ensures writeBuf.consumed == old(writeBuf.consumed) + |chunk|
      ensures chunk == writeBuf.accepted[old(writeBuf.consumed)..writeBuf.consumed]
    {
      var n := Min(room, writeBuf.GetSizeToWrite());
      ghost var start := writeBuf.consumed;
      chunk := writeBuf.Front()[..n];
      assert chunk == writeBuf.accepted[start..start + n];
      var _ := HandleWriteResult(n);
    }

    method HandleWriteResult(rv: int) returns (ok: bool)
      requires writeBuf.Valid() && rv <= writeBuf.GetSizeToWrite()
      modifies this`closed, writeBuf
      ensures writeBuf.Valid()
      ensures ok <==> rv >= 0
      ensures closed == (old(closed) || !ok)
      ensures writeBuf.accepted == old(writeBuf.accepted)
      ensures writeBuf.consumed == old(writeBuf.consumed) + (if ok then rv else 0)
    {
      if rv < 0 {
        closed := true;
        return false;
      }
      writeBuf.DidConsume(rv);
      return true;
    }

    /** The socket became writable: SocketLibevent::WriteCompleted and OnWriteCompleted. */
    method OnWriteReady(result: WriteResult, kernel: seq<WriteResult>) returns (moved: seq<byte>)
      requires WriteValid() && writePending && !closed
      modifies this`writePending, this`closed, writeBuf
      ensures WriteValid()
      ensures writeBuf.accepted == old(writeBuf.accepted)
      ensures writeBuf.consumed == old(writeBuf.consumed) + |moved|
      ensures moved == writeBuf.accepted[old(writeBuf.consumed)..writeBuf.consumed]
      ensures result.Wrote? && result.n > 0 ==> moved != []
      ensures result == WriteError ==> closed && !writePending && moved == []
      ensures result == WritePending ==> !closed && writePending && moved == []
      ensures closed ==> result == WriteError || WriteError in kernel
      ensures closed || writePending || writeBuf.IsEmpty() || result == Wrote(0) || Wrote(0) in kernel
    {
      moved := [];
      match result {
        case WritePending =>
        case WriteError =>
          writePending := false;
          var _ := HandleWriteResult(-1);
        case Wrote(room) =>
          writePending := false;
          var first := WriteSome(room);
          ghost var used;
          moved, used := DoWriteLoop(kernel);
          ExtendSlice(writeBuf.accepted, old(writeBuf.consumed), old(writeBuf.consumed) + |first|, moved);
          moved := first + moved;
      }
    }

    // ---- Reading ----

    /**
     One round of the do-while loop of HandleReadResult.  A complete frame that
     does not parse, or whose length wraps around, is left where it is, and the
     loop goes round again.
     */
    method HandUpFrame() returns (more: bool)
      requires readBuf.Valid()
      modifies this`delivered, readBuf, readBuf.base, readBuf.base.realData
      ensures readBuf.Valid()
      ensures readBuf.base.realData == old(readBuf.base.realData) || fresh(readBuf.base.realData)
      ensures readBuf.received == old(readBuf.received)
      ensures var head := FirstMessage(codec, old(readBuf.Contents()));
              && more == !head.Incomplete?
              && delivered == old(delivered) + (if head.Complete? then [head.message] else [])
              && readBuf.Contents() == old(readBuf.Contents())[if head.Complete? then head.size else 0..]
    {
      if readBuf.GetSize() <= PREFIX {
        return false;
      }
      var bytes := readBuf.Contents();
      var length := FromBigEndian(bytes[..PREFIX]);
      if readBuf.GetSize() < (PREFIX + length) % TWO_TO_THE_32 {
        return false;
      }
      var message := if PREFIX + length <= |bytes| then codec.decode(bytes[PREFIX..PREFIX + length]) else None;
      if message.Some? {
        readBuf.DidConsume(PREFIX + length);
        delivered := delivered + [message.value];
      }
      return true;
    }

    /** The do-while loop, cut off after some rounds: it ends if and only if every complete frame parses. */
    method HandUpRounds(rounds: nat) returns (ended: bool)
      requires readBuf.Valid()
      modifies this`delivered, readBuf, readBuf.base, readBuf.base.realData
      ensures readBuf.Valid()
      ensures readBuf.base.realData == old(readBuf.base.realData) || fresh(readBuf.base.realData)
      ensures readBuf.received == old(readBuf.received)
      ensures var all := old(readBuf.Contents());
              && (ended <==> Parseable(codec, all) && |Deframe(codec, all)| < rounds)
              && (ended ==> delivered == old(delivered) + Deframe(codec, all))
              && (ended ==> readBuf.Contents() == Leftover(codec, all))
    {
      ghost var all := readBuf.Contents();
      ghost var rest := all;
      ended := false;
      for i := 0 to rounds
        invariant readBuf.Valid() && readBuf.Contents() == rest
        invariant readBuf.base.realData == old(readBuf.base.realData) || fresh(readBuf.base.realData)
        invariant readBuf.received == old(readBuf.received)
        invariant Parseable(codec, rest) == Parseable(codec, all)
        invariant delivered + Deframe(codec, rest) == old(delivered) + Deframe(codec, all)
        invariant Leftover(codec, rest) == Leftover(codec, all)
        invariant Parseable(codec, all) ==> |delivered| == |old(delivered)| + i
        invariant !ended
      {
        ghost var before, head := delivered, FirstMessage(codec, rest);
        var more := HandUpFrame();
        if !more {
          return true;
        }
        if head.Complete? {
          rest := rest[head.size..];
          Associative(before, [head.message], Deframe(codec, rest));
        }
      }
    }

    /** The do-while loop: every complete frame is consumed and handed up. */
    method HandUpFrames()
      requires readBuf.Valid() && Parseable(codec, readBuf.Contents())
      modifies this`delivered, readBuf, readBuf.base, readBuf.base.realData
      ensures readBuf.Valid()
      ensures readBuf.base.realData == old(readBuf.base.realData) || fresh(readBuf.base.realData)
      ensures readBuf.received == old(readBuf.received)
      ensures delivered == old(delivered) + Deframe(codec, old(readBuf.Contents()))
      ensures readBuf.Contents() == Leftover(codec, old(readBuf.Contents()))
    {
      ghost var all := readBuf.Contents();
      ghost var rest := all;
      var more := true;
      while more
        invariant readBuf.Valid() && readBuf.Contents() == rest
        invariant readBuf.base.realData == old(readBuf.base.realData) || fresh(readBuf.base.realData)
        invariant readBuf.received == old(readBuf.received)
        invariant Parseable(codec, rest)
        invariant delivered + Deframe(codec, rest) == old(delivered) + Deframe(codec, all)
        invariant Leftover(codec, rest) == Leftover(codec, all)
        invariant !more ==> !FirstMessage(codec, rest).Complete?
        decreases |rest|, more
      {
        ghost var before, head := delivered, FirstMessage(codec, rest);
        more := HandUpFrame();
        if more {
          rest := rest[head.size..];
          Associative(before, [head.message], Deframe(codec, rest));
        }
      }
    }

    /** One pass over the buffer after rv more bytes have been stored in it. */
    method HandleReadResult(rv: int) returns (ok: bool)
      requires ReadValid() && !readPending && !closed
      requires rv <= readBuf.RemainingCapacity()
      requires rv > 0 ==> Parseable(codec, readBuf.received + readBuf.Stored(rv))
      modifies this`delivered, this`closed, readBuf, readBuf.base, readBuf.base.realData
      ensures ReadValid()
      ensures readBuf.base.realData == old(readBuf.base.realData) || fresh(readBuf.base.realData)
      ensures ok <==> rv > 0
      ensures closed == !ok
      ensures !ok ==> delivered == old(delivered)
      ensures readBuf.received == if ok then old(readBuf.received) + old(readBuf.Stored(rv)) else old(readBuf.received)
    {
      if rv <= 0 {
        closed := true;
        return false;
      }
      ghost var before, chunk := readBuf.received, readBuf.Stored(rv);
      ChunkingIndependence(codec, before, chunk);
      readBuf.DidRead(rv);
      assert readBuf.Contents() == Leftover(codec, before) + chunk;
      HandUpFrames();
      assert delivered == Deframe(codec, before + chunk);
      assert readBuf.Contents() == Leftover(codec, before + chunk);
      return true;
    }

    /** Lines 204-207: a full buffer grows, unless it has reached the limit. */
    method MakeRoom() returns (ok: bool)
      requires ReadValid() && !readPending
      modifies readBuf`dataBlock, readBuf`dataPos, readBuf.base
      ensures ReadValid()
      ensures readBuf.base.realData == old(readBuf.base.realData) || fresh(readBuf.base.realData)
      ensures ok <==> old(readBuf.GetSize()) < DEFAULT_MAX_BUFFER_SIZE
      ensures ok ==> readBuf.RemainingCapacity() > 0
      ensures readBuf.GetSize() == old(readBuf.GetSize())
    {
      ok := true;
      if readBuf.RemainingCapacity() == 0 {
        ok := readBuf.IncreaseCapacity();
      }
    }

    /** The kernel stores the next n bytes in flight and HandleReadResult is told so. */
    method Receive(wire: seq<byte>, n: nat) returns (rest: seq<byte>)
      requires ReadValid() && !readPending && !closed
      requires 0 < n <= readBuf.RemainingCapacity() && n <= |wire|
      requires SafeInput(codec, readBuf.received, wire)
      modifies this`delivered, this`closed, readBuf, readBuf.base, readBuf.base.realData
      ensures ReadValid() && !closed
      ensures readBuf.base.realData == old(readBuf.base.realData) || fresh(readBuf.base.realData)
      ensures readBuf.received + rest == old(readBuf.received) + wire && |rest| < |wire|
      ensures SafeInput(codec, readBuf.received, rest)
    {
      SafeTail(codec, readBuf.received, wire, n);
      readBuf.Fill(wire[..n]);
      var _ := HandleReadResult(n);
      rest := wire[n..];
    }

    /** The kernel has up to want bytes ready; with none to take, the read stays pending. */
    method TakeReady(wire: seq<byte>, want: nat) returns (rest: seq<byte>, more: bool)
      requires ReadValid() && !readPending && !closed && readBuf.RemainingCapacity() > 0
      requires SafeInput(codec, readBuf.received, wire)
      modifies this`delivered, this`closed, this`readPending, readBuf, readBuf.base, readBuf.base.realData
      ensures ReadValid() && !closed
      ensures readBuf.base.realData == old(readBuf.base.realData) || fresh(readBuf.base.realData)
      ensures readBuf.received + rest == old(readBuf.received) + wire && |rest| <= |wire|
      ensures SafeInput(codec, readBuf.received, rest)
      ensures readPending == !more
      ensures more <==> want > 0 && wire != []
      ensures if more then |rest| < |wire|
              else rest == wire && delivered == old(delivered) && readBuf.received == old(readBuf.received)
    {
      var n := Min(want, Min(readBuf.RemainingCapacity(), |wire|));
      if n == 0 {
        readPending := true;
        return wire, false;
      }
      rest := Receive(wire, n);
      more := true;
    }

    /** The body of DoReadLoop: make room, call Read, handle its result. */
    method ReadOnce(wire: seq<byte>, result: ReadResult)
      returns (rest: seq<byte>, more: bool, refused: bool)
      requires ReadValid() && !readPending && !closed
      requires SafeInput(codec, readBuf.received, wire)
      modifies this`delivered, this`closed, this`readPending, readBuf, readBuf.base, readBuf.base.realData
      ensures ReadValid()
      ensures readBuf.base.realData == old(readBuf.base.realData) || fresh(readBuf.base.realData)
      ensures readBuf.received + rest == old(readBuf.received) + wire && |rest| <= |wire|
      ensures SafeInput(codec, readBuf.received, rest)
      ensures refused <==> old(readBuf.GetSize()) == DEFAULT_MAX_BUFFER_SIZE
      ensures refused ==> readBuf.GetSize() == DEFAULT_MAX_BUFFER_SIZE
      ensures closed <==> result == ReadError && !refused
      ensures more <==> result.Got? && result.n > 0 && wire != [] && !refused
      ensures more ==> |rest| < |wire|
      ensures !more ==> rest == wire && delivered == old(delivered) && readBuf.received == old(readBuf.received)
      ensures readPending == (!more && !closed && !refused)
    {
      rest, more, refused := wire, false, false;
      var room := MakeRoom();
      if !room {
        refused := true;
        return;
      }
      match result {
        case ReadPending =>
          readPending := true;
        case ReadError =>
          var _ := HandleReadResult(-1);
        case Got(want) =>
          rest, more := TakeReady(wire, want);
      }
    }

    /**
     DoReadLoop against the bytes in flight; rest is what it leaves there.  It
     gives up only when the buffer is full and may not grow any more.  used
     counts the answers that handed over bytes; the next one ends the loop.
     */
    method DoReadLoop(wire: seq<byte>, kernel: seq<ReadResult>)
      returns (rest: seq<byte>, refused: bool, ghost used: nat)
      requires ReadValid() && !readPending && !closed
      requires SafeInput(codec, readBuf.received, wire)
      modifies this`delivered, this`closed, this`readPending, readBuf, readBuf.base, readBuf.base.realData
      ensures ReadValid()
      ensures readBuf.base.realData == old(readBuf.base.realData) || fresh(readBuf.base.realData)
      ensures readBuf.received + rest == old(readBuf.received) + wire && |rest| <= |wire|
      ensures refused ==> readBuf.GetSize() == DEFAULT_MAX_BUFFER_SIZE
      ensures AllGot(kernel, used)
      ensures closed <==> !refused && used < |kernel| && kernel[used] == ReadError
      ensures readPending == (!closed && !refused)
      ensures readPending ==>
                used == |kernel| || kernel[used] == ReadPending
                || (kernel[used].Got? && (kernel[used].n == 0 || rest == []))
    {
      rest, refused, used := wire, false, 0;
      var i, more := 0, true;
      while more
        invariant 0 <= i && |rest| <= |wire|
        invariant ReadValid()
        invariant readBuf.base.realData == old(readBuf.base.realData) || fresh(readBuf.base.realData)
        invariant readBuf.received + rest == old(readBuf.received) + wire
        invariant SafeInput(codec, readBuf.received, rest)
        invariant AllGot(kernel, used)
        invariant if more then used == i && !readPending && !closed && !refused
                  else readPending == (!closed && !refused)
        invariant refused ==> readBuf.GetSize() == DEFAULT_MAX_BUFFER_SIZE
        invariant closed <==> !more && !refused && used < |kernel| && kernel[used] == ReadError
        invariant readPending ==>
                    used == |kernel| || kernel[used] == ReadPending
                    || (kernel[used].Got? && (kernel[used].n == 0 || rest == []))
        decreases |kernel| - i, more
      {
        var result := if i < |kernel| then kernel[i] else ReadPending;
        rest, more, refused := ReadOnce(rest, result);
        i := i + 1;
        if more {
          used := used + 1;
        }
      }
    }

    /** The socket became readable: SocketLibevent::ReadCompleted and OnReadCompleted. */
    method OnReadReady(wire: seq<byte>, result: ReadResult, kernel: seq<ReadResult>)
      returns (rest: seq<byte>, refused: bool)
      requires ReadValid() && readPending && !closed
      requires SafeInput(codec, readBuf.received, wire)
      modifies this`delivered, this`closed, this`readPending, readBuf, readBuf.base, readBuf.base.realData
      ensures ReadValid()
      ensures readBuf.base.realData == old(readBuf.base.realData) || fresh(readBuf.base.realData)
      ensures readBuf.received + rest == old(readBuf.received) + wire && |rest| <= |wire|
      ensures result.Got? && result.n > 0 && wire != [] ==> |rest| < |wire|
      ensures refused ==> readBuf.GetSize() == DEFAULT_MAX_BUFFER_SIZE
      ensures result == ReadError ==>
                closed && rest == wire && delivered == old(delivered) && readBuf.received == old(readBuf.received)
      ensures result == ReadPending ==>
                !closed && rest == wire && delivered == old(delivered) && readBuf.received == old(readBuf.received)
      ensures closed ==> result == ReadError || ReadError in kernel
      ensures readPending == (!closed && !refused)
    {
      rest, refused := wire, false;
      match result {
        case ReadPending =>
        case ReadError =>
          readPending := false;
          var _ := HandleReadResult(-1);
        case Got(want) =>
          var n := Min(want, Min(readBuf.RemainingCapacity(), |wire|));
          if n > 0 {
            readPending := false;
            rest := Receive(wire, n);
            ghost var used;
            rest, refused, used := DoReadLoop(rest, kernel);
          }
      }
    }
  }

  /** Reading the first n bytes of safe input is safe, loses no byte and leaves safe input. */
  lemma SafeTail<M(!new)>(codec: Codec<M>, received: seq<byte>, wire: seq<byte>, n: nat)
    requires SafeInput(codec, received, wire) && n <= |wire|
    ensures Parseable(codec, received + wire[..n])
    ensures received + wire == received + wire[..n] + wire[n..]
    ensures SafeInput(codec, received + wire[..n], wire[n..])
  {
    assert wire == wire[..n] + wire[n..];
    Associative(received, wire[..n], wire[n..]);
    forall k | 0 <= k <= |wire| - n
      ensures Parseable(codec, received + wire[..n] + wire[n..][..k])
    {
      assert received + wire[..n] + wire[n..][..k] == received + wire[..n + k];
    }
  }
}
