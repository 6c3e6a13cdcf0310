/**
 A sender, the bytes in flight and a receiver.  Next is the abstract link: an
 unbounded byte pipe with a functional parser at its end.  RunLink drives the
 buffers and loops of RpcConnection under any schedule and refines it.
 */
module RpcDelivery {
  import opened Bytes
  import opened Framing
  import opened IoBuffers
  import opened RpcConnections
  import opened Sequences

  /** One event, with what the kernel answers to the calls it leads to. */
  datatype Action<+M> =
    | Send(message: M, writes: seq<WriteResult>)
    | Writable(firstWrite: WriteResult, writes: seq<WriteResult>)
    | Readable(firstRead: ReadResult, gets: seq<ReadResult>)

  datatype Sender<+M> = Sender(accepted: seq<M>, unsent: seq<byte>, writePending: bool, down: bool)

  datatype Receiver<+M> = Receiver(received: seq<byte>, delivered: seq<M>, down: bool)

  datatype Link<+M> = Link(sender: Sender<M>, wire: seq<byte>, receiver: Receiver<M>)

  function Init<M>(): Link<M> {
    Link(Sender([], [], false, false), [], Receiver([], [], false))
  }

  /** Append's test of the write queue limit. */
  predicate Fits<M(!new)>(codec: Codec<M>, s: Sender<M>, m: M) {
    |s.unsent| + |Frame(codec, m)| <= DEFAULT_MAX_BUFFER_SIZE
  }

  function Offer<M(!new)>(codec: Codec<M>, s: Sender<M>, m: M): Sender<M> {
    if Fits(codec, s, m) then s.(accepted := s.accepted + [m], unsent := s.unsent + Frame(codec, m)) else s
  }

  /** Some first part of the queue of s has moved onto the wire. */
  ghost predicate Moved<M>(s: Sender<M>, wire: seq<byte>, s': Sender<M>, wire': seq<byte>) {
    s'.accepted == s.accepted && wire <= wire' && wire' + s'.unsent == wire + s.unsent
  }

  /**
   A call while a write is pending fails the socket's CHECK and takes the
   sender down; so does a write error.  Otherwise bytes that stay unsent have
   a write callback that will move them, unless the kernel took zero bytes.
   */
  ghost predicate NextSend<M(!new)>(
    codec: Codec<M>, s: Sender<M>, wire: seq<byte>, m: M, writes: seq<WriteResult>, s': Sender<M>, wire': seq<byte>)
  {
    if s.down then s' == s && wire' == wire else
      && Moved(Offer(codec, s, m), wire, s', wire')
      && (s.writePending ==> s'.down)
      && (s.writePending || writes == [] ==> wire' == wire)
      && (s'.down ==> s.writePending || WriteError in writes)
      && (s'.down || s'.writePending || s'.unsent == [] || Wrote(0) in writes)
      && (!s.writePending && Offer(codec, s, m).unsent != [] && writes != [] && writes[0] == WriteError ==>
            s'.down && wire' == wire)
  }

  ghost predicate NextWrite<M>(
    s: Sender<M>, wire: seq<byte>, first: WriteResult, writes: seq<WriteResult>, s': Sender<M>, wire': seq<byte>)
  {
    if s.down || !s.writePending then s' == s && wire' == wire else
      && Moved(s, wire, s', wire')
      && (first.Wrote? && first.n > 0 ==> |s'.unsent| < |s.unsent|)
      && (first == WriteError ==> s' == s.(writePending := false, down := true) && wire' == wire)
      && (first == WritePending ==> s' == s && wire' == wire)
      && (s'.down ==> first == WriteError || WriteError in writes)
      && (s'.down || s'.writePending || s'.unsent == [] || first == Wrote(0) || Wrote(0) in writes)
  }

  ghost predicate NextRead<M(!new)>(
    codec: Codec<M>, r: Receiver<M>, wire: seq<byte>, first: ReadResult, gets: seq<ReadResult>,
    r': Receiver<M>, wire': seq<byte>)
  {
    if r.down then r' == r && wire' == wire else
      && r'.received + wire' == r.received + wire
      && |wire'| <= |wire|
      && (first.Got? && first.n > 0 && wire != [] ==> |wire'| < |wire|)
      && r'.delivered == Deframe(codec, r'.received)
      && (first == ReadError ==> r' == r.(down := true) && wire' == wire)
      && (first == ReadPending ==> r' == r && wire' == wire)
      && (r'.down ==> first == ReadError || ReadError in gets)
  }

  ghost predicate Next<M(!new)>(codec: Codec<M>, l: Link<M>, a: Action<M>, l': Link<M>) {
    match a
    case Send(m, writes) =>
      l'.receiver == l.receiver && NextSend(codec, l.sender, l.wire, m, writes, l'.sender, l'.wire)
    case Writable(first, writes) =>
      l'.receiver == l.receiver && NextWrite(l.sender, l.wire, first, writes, l'.sender, l'.wire)
    case Readable(first, gets) =>
      l'.sender == l.sender && NextRead(codec, l.receiver, l.wire, first, gets, l'.receiver, l'.wire)
  }

  ghost predicate StepAt<M(!new)>(codec: Codec<M>, schedule: seq<Action<M>>, trace: seq<Link<M>>, i: nat)
    requires i < |schedule| && |trace| == |schedule| + 1
  {
    Next(codec, trace[i], schedule[i], trace[i + 1])
  }

  /** A run from the initial state, with the state before and after each event. */
  ghost predicate IsTrace<M(!new)>(codec: Codec<M>, schedule: seq<Action<M>>, trace: seq<Link<M>>) {
    && |trace| == |schedule| + 1
    && trace[0] == Init()
    && forall i: nat :: i < |schedule| ==> StepAt(codec, schedule, trace, i)
  }

  /** No byte is lost, repeated or reordered between Append and the receiver's buffer. */
  ghost predicate Conserved<M(!new)>(codec: Codec<M>, l: Link<M>) {
    && Stream(codec, l.sender.accepted) == l.receiver.received + l.wire + l.sender.unsent
    && FramesFit(codec, l.sender.accepted, DEFAULT_MAX_BUFFER_SIZE)
    && l.receiver.delivered == Deframe(codec, l.receiver.received)
  }

  /** End-to-end delivery in one state. */
  ghost predicate Delivers<M(!new)>(codec: Codec<M>, l: Link<M>) {
    var accepted, received, delivered := l.sender.accepted, l.receiver.received, l.receiver.delivered;
    && delivered == accepted[..CompleteCount(codec, accepted, |received|)]
    && (l.sender.unsent == [] && l.wire == [] ==> delivered == accepted)
    && |Leftover(codec, received)| < DEFAULT_MAX_BUFFER_SIZE
  }

  /** What the receiver would make of n more bytes. */
  lemma ConservedPrefix<M(!new)>(codec: Codec<M>, l: Link<M>, n: nat)
    requires codec.RoundTrips() && codec.NonEmpty()
    requires Conserved(codec, l) && n <= |l.wire|
    ensures var b := l.receiver.received + l.wire[..n];
            var accepted := l.sender.accepted;
            && Parseable(codec, b)
            && Deframe(codec, b) == accepted[..CompleteCount(codec, accepted, |b|)]
            && |Leftover(codec, b)| < DEFAULT_MAX_BUFFER_SIZE
            && (|b| == |Stream(codec, accepted)| ==> Deframe(codec, b) == accepted)
  {
    var b := l.receiver.received + l.wire[..n];
    var stream := Stream(codec, l.sender.accepted);
    assert b == stream[..|b|];
    DeframeNonEmptyStream(codec, l.sender.accepted, |b|, DEFAULT_MAX_BUFFER_SIZE);
    if |b| == |stream| {
      assert b == stream;
    }
  }

  lemma ConservedDelivers<M(!new)>(codec: Codec<M>, l: Link<M>)
    requires codec.RoundTrips() && codec.NonEmpty()
    requires Conserved(codec, l)
    ensures Delivers(codec, l)
    ensures SafeInput(codec, l.receiver.received, l.wire)
  {
    ConservedPrefix(codec, l, 0);
    assert l.receiver.received + l.wire[..0] == l.receiver.received;
    forall n | 0 <= n <= |l.wire|
      ensures Parseable(codec, l.receiver.received + l.wire[..n])
    {
      ConservedPrefix(codec, l, n);
    }
  }

  /** Moving bytes from the queue to the wire keeps the whole. */
  lemma MovedConserves<M(!new)>(received: seq<byte>, s: Sender<M>, wire: seq<byte>, s': Sender<M>, wire': seq<byte>)
    requires Moved(s, wire, s', wire')
    ensures received + wire + s.unsent == received + wire' + s'.unsent
  {
    Associative(received, wire, s.unsent);
    Associative(received, wire', s'.unsent);
  }

  lemma OfferConserves<M(!new)>(codec: Codec<M>, l: Link<M>, m: M)
    requires Conserved(codec, l)
    ensures Conserved(codec, l.(sender := Offer(codec, l.sender, m)))
  {
    if Fits(codec, l.sender, m) {
      StreamSnoc(codec, l.sender.accepted, m);
      Associative(l.receiver.received + l.wire, l.sender.unsent, Frame(codec, m));
    }
  }

  lemma NextConserves<M(!new)>(codec: Codec<M>, l: Link<M>, a: Action<M>, l': Link<M>)
    requires Conserved(codec, l) && Next(codec, l, a, l')
    ensures Conserved(codec, l')
  {
    match a {
      case Send(m, _) =>
        if !l.sender.down {
          OfferConserves(codec, l, m);
          MovedConserves(l.receiver.received, Offer(codec, l.sender, m), l.wire, l'.sender, l'.wire);
        }
      case Writable(_, _) =>
        if !l.sender.down && l.sender.writePending {
          MovedConserves(l.receiver.received, l.sender, l.wire, l'.sender, l'.wire);
        }
      case Readable(_, _) =>
    }
  }

  /** Every state of every run of the link delivers, whatever the interleaving. */
  lemma {:induction false} EveryTraceDelivers<M(!new)>(
    codec: Codec<M>, schedule: seq<Action<M>>, trace: seq<Link<M>>, i: nat)
    requires codec.RoundTrips() && codec.NonEmpty()
    requires IsTrace(codec, schedule, trace) && i < |trace|
    ensures Conserved(codec, trace[i]) && Delivers(codec, trace[i])
  {
    if i > 0 {
      EveryTraceDelivers(codec, schedule, trace, i - 1);
      assert StepAt(codec, schedule, trace, i - 1);
      NextConserves(codec, trace[i - 1], schedule[i - 1], trace[i]);
    }
    ConservedDelivers(codec, trace[i]);
  }

  lemma NextExtends<M(!new)>(codec: Codec<M>, l: Link<M>, a: Action<M>, l': Link<M>)
    requires codec.RoundTrips() && codec.NonEmpty()
    requires Conserved(codec, l) && Next(codec, l, a, l')
    ensures l.sender.accepted <= l'.sender.accepted
    ensures l.receiver.received <= l'.receiver.received
    ensures l.receiver.delivered <= l'.receiver.delivered
  {
    if a.Readable? && !l.receiver.down {
      var received, received' := l.receiver.received, l'.receiver.received;
      var n := |l.wire| - |l'.wire|;
      assert received' == received + l.wire[..n] by {
        assert received' == (received' + l'.wire)[..|received'|];
        assert received + l.wire[..n] == (received + l.wire)[..|received| + n];
      }
      ConservedDelivers(codec, l);
      assert Parseable(codec, received) by {
        assert received + l.wire[..0] == received;
      }
      ChunkingIndependence(codec, received, l.wire[..n]);
    }
  }

  /** What has been handed up is never taken back: later states extend it. */
  lemma {:induction false} DeliveredGrows<M(!new)>(
    codec: Codec<M>, schedule: seq<Action<M>>, trace: seq<Link<M>>, i: nat, j: nat)
    requires codec.RoundTrips() && codec.NonEmpty()
    requires IsTrace(codec, schedule, trace) && i <= j < |trace|
    ensures trace[i].sender.accepted <= trace[j].sender.accepted
    ensures trace[i].receiver.received <= trace[j].receiver.received
    ensures trace[i].receiver.delivered <= trace[j].receiver.delivered
    decreases j
  {
    if i < j {
      DeliveredGrows(codec, schedule, trace, i, j - 1);
      EveryTraceDelivers(codec, schedule, trace, j - 1);
      assert StepAt(codec, schedule, trace, j - 1);
      NextExtends(codec, trace[j - 1], schedule[j - 1], trace[j]);
    }
  }

  /** A call made while the write of an earlier one is pending takes the process down. */
  lemma SecondSendAborts<M(!new)>(codec: Codec<M>, m: M, trace: seq<Link<M>>)
    requires |Frame(codec, m)| <= DEFAULT_MAX_BUFFER_SIZE
    requires IsTrace(codec, [Send(m, []), Send(m, [])], trace)
    ensures !trace[1].sender.down && trace[1].sender.writePending && trace[2].sender.down
  {
    assert StepAt(codec, [Send(m, []), Send(m, [])], trace, 0);
    assert StepAt(codec, [Send(m, []), Send(m, [])], trace, 1);
    var offered := Offer(codec, Init<M>().sender, m);
    assert offered.unsent == Frame(codec, m);
    assert trace[1].wire + trace[1].sender.unsent == [] + offered.unsent;
    assert trace[1].sender.unsent != [];
  }

  // ---- Nothing stays under way ----

  /** The kernel never takes zero bytes. */
  predicate NoZeroWrite<M(==)>(a: Action<M>) {
    match a
    case Send(_, writes) => Wrote(0) !in writes
    case Writable(first, writes) => first != Wrote(0) && Wrote(0) !in writes
    case Readable(_, _) => true
  }

  /** Unsent bytes have a write callback that will move them. */
  predicate Flowing<M(==)>(l: Link<M>) {
    l.sender.down || l.sender.writePending || l.sender.unsent == []
  }

  lemma {:induction false} NeverStalls<M(!new)>(codec: Codec<M>, schedule: seq<Action<M>>, trace: seq<Link<M>>, i: nat)
    requires IsTrace(codec, schedule, trace) && i < |trace|
    requires forall j :: 0 <= j < i ==> NoZeroWrite(schedule[j])
    ensures Flowing(trace[i])
  {
    if i > 0 {
      NeverStalls(codec, schedule, trace, i - 1);
      assert StepAt(codec, schedule, trace, i - 1);
    }
  }

  /** An event in which the kernel takes or hands over at least one byte and reports no error. */
  predicate Progresses<M(==)>(a: Action<M>) {
    match a
    case Send(_, _) => false
    case Writable(first, writes) =>
      first.Wrote? && first.n > 0 && WriteError !in writes && Wrote(0) !in writes
    case Readable(first, gets) => first.Got? && first.n > 0 && ReadError !in gets
  }

  /** Both ends are up and unsent bytes are on their way. */
  predicate Up<M(==)>(l: Link<M>) {
    !l.sender.down && !l.receiver.down && Flowing(l)
  }

  /** At most this many bytes are unsent, and at most this many have not been read. */
  predicate Within<M>(l: Link<M>, unsent: int, unread: int) {
    |l.sender.unsent| <= unsent && |l.wire| + |l.sender.unsent| <= unread
  }

  lemma ProgressStep<M(!new)>(codec: Codec<M>, l: Link<M>, a: Action<M>, l': Link<M>, unsent: nat, unread: nat)
    requires Next(codec, l, a, l') && Up(l) && Progresses(a) && Within(l, unsent, unread)
    ensures Up(l') && l'.sender.accepted == l.sender.accepted
    ensures Within(l', unsent, unread)
    ensures a.Writable? && unsent > 0 ==> Within(l', unsent - 1, unread)
    ensures a.Readable? && unsent == 0 && unread > 0 ==> Within(l', 0, unread - 1)
  {
    if a.Writable? {
      assert |l'.wire + l'.sender.unsent| == |l.wire + l.sender.unsent|;
    }
  }

  function Writables<M>(schedule: seq<Action<M>>, i: nat, j: nat): nat
    requires i <= j <= |schedule|
  {
    if i == j then 0 else Writables(schedule, i, j - 1) + if schedule[j - 1].Writable? then 1 else 0
  }

  function Readables<M>(schedule: seq<Action<M>>, i: nat, j: nat): nat
    requires i <= j <= |schedule|
  {
    if i == j then 0 else Readables(schedule, i, j - 1) + if schedule[j - 1].Readable? then 1 else 0
  }

  ghost predicate AllProgress<M(!new)>(schedule: seq<Action<M>>, i: nat, j: nat)
    requires i <= j <= |schedule|
  {
    forall n :: i <= n < j ==> Progresses(schedule[n])
  }

  function Max(a: int, b: int): int {
    if a <= b then b else a
  }

  /** Each write event brings the unsent bytes down by at least one. */
  lemma {:induction false} WritesDrain<M(!new)>(
    codec: Codec<M>, schedule: seq<Action<M>>, trace: seq<Link<M>>, i: nat, j: nat)
    requires IsTrace(codec, schedule, trace) && i <= j <= |schedule|
    requires Up(trace[i]) && AllProgress(schedule, i, j)
    ensures Up(trace[j]) && trace[j].sender.accepted == trace[i].sender.accepted
    ensures var unsent := |trace[i].sender.unsent|;
            Within(trace[j], Max(0, unsent - Writables(schedule, i, j)), unsent + |trace[i].wire|)
    decreases j
  {
    if i < j {
      WritesDrain(codec, schedule, trace, i, j - 1);
      assert StepAt(codec, schedule, trace, j - 1);
      var unsent := |trace[i].sender.unsent|;
      ProgressStep(codec, trace[j - 1], schedule[j - 1], trace[j],
                   Max(0, unsent - Writables(schedule, i, j - 1)), unsent + |trace[i].wire|);
    }
  }

  /** With nothing unsent, each read event brings the bytes in flight down by at least one. */
  lemma {:induction false} ReadsDrain<M(!new)>(
    codec: Codec<M>, schedule: seq<Action<M>>, trace: seq<Link<M>>, i: nat, j: nat, unread: nat)
    requires IsTrace(codec, schedule, trace) && i <= j <= |schedule|
    requires Up(trace[i]) && AllProgress(schedule, i, j) && Within(trace[i], 0, unread)
    ensures Up(trace[j]) && trace[j].sender.accepted == trace[i].sender.accepted
    ensures Within(trace[j], 0, Max(0, unread - Readables(schedule, i, j)))
    decreases j
  {
    if i < j {
      ReadsDrain(codec, schedule, trace, i, j - 1, unread);
      assert StepAt(codec, schedule, trace, j - 1);
      ProgressStep(codec, trace[j - 1], schedule[j - 1], trace[j], 0, Max(0, unread - Readables(schedule, i, j - 1)));
    }
  }

  /**
   From any state of a run without zero writes in which both ends are up: after
   as many write events as bytes are unsent, and then as many read events as
   bytes have not been read, everything accepted has been handed up.
   */
  lemma EverythingArrives<M(!new)>(
    codec: Codec<M>, schedule: seq<Action<M>>, trace: seq<Link<M>>, i: nat, j: nat, k: nat)
    requires codec.RoundTrips() && codec.NonEmpty()
    requires IsTrace(codec, schedule, trace) && i <= j <= k <= |schedule|
    requires forall n :: 0 <= n < i ==> NoZeroWrite(schedule[n])
    requires !trace[i].sender.down && !trace[i].receiver.down && AllProgress(schedule, i, k)
    requires Writables(schedule, i, j) >= |trace[i].sender.unsent|
    requires Readables(schedule, j, k) >= |trace[i].sender.unsent| + |trace[i].wire|
    ensures trace[k].receiver.delivered == trace[k].sender.accepted == trace[i].sender.accepted
  {
    NeverStalls(codec, schedule, trace, i);
    WritesDrain(codec, schedule, trace, i, j);
    ReadsDrain(codec, schedule, trace, j, k, |trace[i].sender.unsent| + |trace[i].wire|);
    EveryTraceDelivers(codec, schedule, trace, k);
  }

  // ---- The running objects ----

  /** The connection's sending half is in state s. */
  ghost predicate SenderIs<M(!new)>(s: Sender<M>, connection: RpcConnection<M>)
    reads connection, connection.writeBuf
  {
    && connection.WriteValid()
    && s.accepted == connection.accepted
    && s.unsent == connection.writeBuf.accepted[connection.writeBuf.consumed..]
    && s.writePending == connection.writePending
    && s.down == (connection.closed || connection.aborted)
  }

  /** The connection's receiving half is in state r, and waits for data unless it is closed. */
  ghost predicate ReceiverIs<M(!new)>(r: Receiver<M>, connection: RpcConnection<M>)
    reads connection, connection.readBuf, connection.readBuf.base, connection.readBuf.base.realData
  {
    && connection.ReadValid()
    && r.received == connection.readBuf.received
    && r.delivered == connection.delivered
    && r.down == connection.closed
    && connection.readPending == !connection.closed
  }

  lemma SplitMoves<M(!new)>(s: Sender<M>, wire: seq<byte>, s': Sender<M>, n: nat)
    requires n <= |s.unsent| && s'.accepted == s.accepted && s'.unsent == s.unsent[n..]
    ensures Moved(s, wire, s', wire + s.unsent[..n])
    ensures n == 0 ==> wire + s.unsent[..n] == wire
  {
    assert s.unsent == s.unsent[..n] + s.unsent[n..];
    Associative(wire, s.unsent[..n], s.unsent[n..]);
  }

  /** added joins the queue, and moved leaves it from start on. */
  lemma SentTail(queue: seq<byte>, start: nat, added: seq<byte>, moved: seq<byte>)
    requires start <= |queue| && start + |moved| <= |queue + added|
    requires moved == (queue + added)[start..start + |moved|]
    ensures queue[start..] + added == (queue + added)[start..]
    ensures moved == (queue[start..] + added)[..|moved|]
    ensures (queue + added)[start + |moved|..] == (queue[start..] + added)[|moved|..]
    ensures added == [] ==> queue + added == queue && queue[start..] + added == queue[start..]
  {
    DropConcat(queue, start, added);
    SliceOfDrop(queue + added, start, moved);
  }

  /** What a send does to the queue and the flags: moved leaves the queue as it is after the offer. */
  ghost predicate Sends<M(!new)>(
    codec: Codec<M>, s: Sender<M>, m: M, writes: seq<WriteResult>, moved: seq<byte>, s': Sender<M>)
  {
    var offered := Offer(codec, s, m);
    && |moved| <= |offered.unsent| && moved == offered.unsent[..|moved|]
    && s'.accepted == offered.accepted && s'.unsent == offered.unsent[|moved|..]
    && (s.writePending ==> s'.down)
    && (s.writePending || writes == [] ==> moved == [])
    && (s'.down ==> s.writePending || WriteError in writes)
    && (s'.down || s'.writePending || s'.unsent == [] || Wrote(0) in writes)
    && (!s.writePending && offered.unsent != [] && writes != [] && writes[0] == WriteError ==> s'.down && moved == [])
  }

  lemma SendRefines<M(!new)>(
    codec: Codec<M>, s: Sender<M>, wire: seq<byte>, m: M, writes: seq<WriteResult>, moved: seq<byte>, s': Sender<M>)
    requires !s.down && Sends(codec, s, m, writes, moved, s')
    ensures NextSend(codec, s, wire, m, writes, s', wire + moved)
  {
    SplitMoves(Offer(codec, s, m), wire, s', |moved|);
  }

  /** The queue after an offer that was accepted or was not, and after moved has left it. */
  lemma OfferMoved<M(!new)>(
    codec: Codec<M>, s: Sender<M>, m: M, ok: bool, queue: seq<byte>, start: nat, moved: seq<byte>)
    requires start <= |queue| && s.unsent == queue[start..] && (ok <==> Fits(codec, s, m))
    requires var after := queue + if ok then Frame(codec, m) else [];
             start + |moved| <= |after| && moved == after[start..start + |moved|]
    ensures var after := queue + if ok then Frame(codec, m) else [];
            var offered := Offer(codec, s, m);
            && |moved| <= |offered.unsent| && moved == offered.unsent[..|moved|]
            && offered.unsent[|moved|..] == after[start + |moved|..]
            && offered.accepted == if ok then s.accepted + [m] else s.accepted
  {
    SentTail(queue, start, if ok then Frame(codec, m) else [], moved);
  }

  method SendOn<M(!new)>(m: M, writes: seq<WriteResult>, s: Sender<M>, connection: RpcConnection<M>)
    returns (moved: seq<byte>, s': Sender<M>)
    requires SenderIs(s, connection) && !s.down
    modifies connection, connection.writeBuf
    ensures SenderIs(s', connection) && Sends(connection.codec, s, m, writes, moved, s')
  {
    ghost var queue, start := connection.writeBuf.accepted, connection.writeBuf.consumed;
    var ok;
    ok, moved := connection.SendMessage(m, writes);
    OfferMoved(connection.codec, s, m, ok, queue, start, moved);
    var offered := Offer(connection.codec, s, m);
    s' := Sender(offered.accepted, offered.unsent[|moved|..], connection.writePending,
                 connection.closed || connection.aborted);
  }

  method PerformSend<M(!new)>(
    m: M, writes: seq<WriteResult>, s: Sender<M>, wire: seq<byte>, connection: RpcConnection<M>)
    returns (s': Sender<M>, wire': seq<byte>)
    requires SenderIs(s, connection)
    modifies connection, connection.writeBuf
    ensures SenderIs(s', connection)
    ensures NextSend(connection.codec, s, wire, m, writes, s', wire')
  {
    s', wire' := s, wire;
    if !connection.closed && !connection.aborted {
      var moved;
      moved, s' := SendOn(m, writes, s, connection);
      SendRefines(connection.codec, s, wire, m, writes, moved, s');
      wire' := wire + moved;
    }
  }

  method PerformWrite<M(!new)>(
    first: WriteResult, writes: seq<WriteResult>, s: Sender<M>, wire: seq<byte>, connection: RpcConnection<M>)
    returns (s': Sender<M>, wire': seq<byte>)
    requires SenderIs(s, connection)
    modifies connection, connection.writeBuf
    ensures SenderIs(s', connection)
    ensures NextWrite(s, wire, first, writes, s', wire')
  {
    s', wire' := s, wire;
    if !connection.closed && !connection.aborted && connection.writePending {
      var moved := connection.OnWriteReady(first, writes);
      SliceOfDrop(connection.writeBuf.accepted, old(connection.writeBuf.consumed), moved);
      s' := Sender(s.accepted, s.unsent[|moved|..], connection.writePending,
                   connection.closed || connection.aborted);
      SplitMoves(s, wire, s', |moved|);
      wire' := wire + moved;
    }
  }

  /** What has been taken from the wire is the part in front of rest. */
  lemma TakenFromWire<T>(received: seq<T>, wire: seq<T>, received': seq<T>, rest: seq<T>)
    requires received' + rest == received + wire && |rest| <= |wire|
    ensures received' == received + wire[..|wire| - |rest|]
  {
    assert received' == (received' + rest)[..|received'|];
    assert received + wire[..|wire| - |rest|] == (received + wire)[..|received'|];
  }

  method PerformRead<M(!new)>(
    first: ReadResult, gets: seq<ReadResult>, r: Receiver<M>, wire: seq<byte>, connection: RpcConnection<M>)
    returns (r': Receiver<M>, wire': seq<byte>, refused: bool)
    requires ReceiverIs(r, connection) && SafeInput(connection.codec, r.received, wire)
    modifies connection, connection.readBuf, connection.readBuf.base, connection.readBuf.base.realData
    ensures connection.ReadValid()
    ensures connection.readBuf.base.realData == old(connection.readBuf.base.realData)
            || fresh(connection.readBuf.base.realData)
    ensures NextRead(connection.codec, r, wire, first, gets, r', wire')
    ensures refused ==> |Leftover(connection.codec, r'.received)| == DEFAULT_MAX_BUFFER_SIZE
    ensures !refused ==> ReceiverIs(r', connection)
  {
    r', wire', refused := r, wire, false;
    if !connection.closed {
      wire', refused := connection.OnReadReady(wire, first, gets);
      TakenFromWire(r.received, wire, connection.readBuf.received, wire');
      r' := Receiver(r.received + wire[..|wire| - |wire'|], connection.delivered, connection.closed);
    }
  }

  /** Both ends are in the recorded state, which conserves the bytes. */
  ghost predicate LinkIs<M(!new)>(codec: Codec<M>, l: Link<M>, near: RpcConnection<M>, far: RpcConnection<M>)
    reads near, near.writeBuf
    reads far, far.readBuf, far.readBuf.base, far.readBuf.base.realData
  {
    && near != far && near.codec == codec && far.codec == codec
    && SenderIs(l.sender, near) && ReceiverIs(l.receiver, far) && Conserved(codec, l)
  }

  /** A new connection whose first DoReadLoop has found nothing to read. */
  method StartReceiver<M(!new)>(codec: Codec<M>) returns (far: RpcConnection<M>)
    ensures fresh(far) && fresh(far.readBuf) && fresh(far.readBuf.base) && fresh(far.readBuf.base.realData)
    ensures far.codec == codec && ReceiverIs(Receiver([], [], false), far)
  {
    far := new RpcConnection<M>(codec);
    var rest, refused;
    ghost var used;
    rest, refused, used := far.DoReadLoop([], []);
  }

  lemma InitConserved<M(!new)>(codec: Codec<M>)
    ensures Conserved(codec, Init())
  {
    assert Stream<M>(codec, []) == [];
  }

  method StartLink<M(!new)>(codec: Codec<M>) returns (near: RpcConnection<M>, far: RpcConnection<M>)
    ensures fresh(near) && fresh(near.writeBuf) && fresh(far)
    ensures fresh(far.readBuf) && fresh(far.readBuf.base) && fresh(far.readBuf.base.realData)
    ensures LinkIs(codec, Init(), near, far)
  {
    InitConserved(codec);
    near := new RpcConnection<M>(codec);
    far := StartReceiver(codec);
  }

  method StepSender<M(!new)>(
    codec: Codec<M>, a: Action<M>, l: Link<M>, near: RpcConnection<M>, ghost far: RpcConnection<M>)
    returns (l': Link<M>)
    requires LinkIs(codec, l, near, far) && !a.Readable?
    modifies near, near.writeBuf
    ensures far.readBuf.base.realData == old(far.readBuf.base.realData)
    ensures LinkIs(codec, l', near, far) && Next(codec, l, a, l')
  {
    var s, wire := l.sender, l.wire;
    if a.Send? {
      s, wire := PerformSend(a.message, a.writes, s, wire, near);
    } else {
      s, wire := PerformWrite(a.firstWrite, a.writes, s, wire, near);
    }
    l' := Link(s, wire, l.receiver);
    NextConserves(codec, l, a, l');
  }

  /** The buffer is never full, because what it holds is less than one accepted frame. */
  method StepReceiver<M(!new)>(
    codec: Codec<M>, a: Action<M>, l: Link<M>, ghost near: RpcConnection<M>, far: RpcConnection<M>)
    returns (l': Link<M>, refused: bool)
    requires codec.RoundTrips() && codec.NonEmpty()
    requires LinkIs(codec, l, near, far) && a.Readable?
    modifies far, far.readBuf, far.readBuf.base, far.readBuf.base.realData
    ensures far.readBuf.base.realData == old(far.readBuf.base.realData) || fresh(far.readBuf.base.realData)
    ensures LinkIs(codec, l', near, far) && Next(codec, l, a, l')
    ensures !refused
  {
    ConservedDelivers(codec, l);
    var r, wire;
    r, wire, refused := PerformRead(a.firstRead, a.gets, l.receiver, l.wire, far);
    l' := Link(l.sender, wire, r);
    NextConserves(codec, l, a, l');
    ConservedDelivers(codec, l');
  }

  /** The next event of the schedule, recorded in the trace. */
  method Step<M(!new)>(
    codec: Codec<M>, schedule: seq<Action<M>>, i: nat, trace: seq<Link<M>>, l: Link<M>,
    near: RpcConnection<M>, far: RpcConnection<M>)
    returns (trace': seq<Link<M>>, l': Link<M>, refused: bool)
    requires codec.RoundTrips() && codec.NonEmpty()
    requires i < |schedule| && IsTrace(codec, schedule[..i], trace) && trace[i] == l
    requires LinkIs(codec, l, near, far)
    modifies near, near.writeBuf, far, far.readBuf, far.readBuf.base, far.readBuf.base.realData
    ensures far.readBuf.base.realData == old(far.readBuf.base.realData) || fresh(far.readBuf.base.realData)
    ensures IsTrace(codec, schedule[..i + 1], trace') && trace'[i + 1] == l'
    ensures LinkIs(codec, l', near, far)
    ensures !refused
  {
    refused := false;
    if schedule[i].Readable? {
      l', refused := StepReceiver(codec, schedule[i], l, near, far);
    } else {
      l' := StepSender(codec, schedule[i], l, near, far);
    }
    ExtendTrace(codec, schedule, i, trace, l');
    trace' := trace + [l'];
  }

  /** The rest of the schedule from event i on. */
  method RunEvents<M(!new)>(
    codec: Codec<M>, schedule: seq<Action<M>>, i: nat, trace: seq<Link<M>>, l: Link<M>,
    near: RpcConnection<M>, far: RpcConnection<M>)
    returns (trace': seq<Link<M>>, refused: bool)
    requires codec.RoundTrips() && codec.NonEmpty()
    requires i <= |schedule| && IsTrace(codec, schedule[..i], trace) && trace[i] == l
    requires LinkIs(codec, l, near, far)
    modifies near, near.writeBuf, far, far.readBuf, far.readBuf.base, far.readBuf.base.realData
    ensures IsTrace(codec, schedule, trace')
    ensures !refused
    decreases |schedule| - i
  {
    if i == |schedule| {
      assert schedule[..i] == schedule;
      return trace, false;
    }
    var l';
    trace', l', refused := Step(codec, schedule, i, trace, l, near, far);
    trace', refused := RunEvents(codec, schedule, i + 1, trace', l', near, far);
  }

  /**
   The real objects under any schedule: the run is a trace of the abstract
   link, and the receiver never has to refuse data for want of buffer space.
   */
  method RunLink<M(!new)>(codec: Codec<M>, schedule: seq<Action<M>>)
    returns (trace: seq<Link<M>>, refused: bool)
    requires codec.RoundTrips() && codec.NonEmpty()
    ensures IsTrace(codec, schedule, trace)
    ensures forall i :: 0 <= i <= |schedule| ==> Delivers(codec, trace[i])
    ensures !refused
  {
    var near, far := StartLink(codec);
    InitTrace(codec, schedule);
    trace, refused := RunEvents(codec, schedule, 0, [Init()], Init(), near, far);
    AllDeliver(codec, schedule, trace);
  }

  lemma InitTrace<M(!new)>(codec: Codec<M>, schedule: seq<Action<M>>)
    ensures IsTrace(codec, schedule[..0], [Init()])
  {
  }

  lemma AllDeliver<M(!new)>(codec: Codec<M>, schedule: seq<Action<M>>, trace: seq<Link<M>>)
    requires codec.RoundTrips() && codec.NonEmpty()
    requires IsTrace(codec, schedule, trace)
    ensures forall i :: 0 <= i <= |schedule| ==> Delivers(codec, trace[i])
  {
    forall i | 0 <= i <= |schedule|
      ensures Delivers(codec, trace[i])
    {
      EveryTraceDelivers(codec, schedule, trace, i);
    }
  }

  lemma ExtendTrace<M(!new)>(
    codec: Codec<M>, schedule: seq<Action<M>>, n: nat, trace: seq<Link<M>>, l: Link<M>)
    requires n < |schedule|
    requires IsTrace(codec, schedule[..n], trace) && Next(codec, trace[n], schedule[n], l)
    ensures IsTrace(codec, schedule[..n + 1], trace + [l])
  {
    var actions, states := schedule[..n + 1], trace + [l];
    forall i: nat | i < n + 1
      ensures StepAt(codec, actions, states, i)
    {
      if i < n {
        assert StepAt(codec, schedule[..n], trace, i);
      }
    }
  }
}
