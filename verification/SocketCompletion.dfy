/**
 SocketLibevent: operations that complete at once or leave a callback in a slot
 until the system reports that the descriptor is ready.

 An operation is known by its number in the order of issue; its fate says what
 became of it.
 */
module SocketCompletion {
  import opened NetErrors
  import opened Options

  datatype Kind = AcceptOp | ConnectOp | ReadOp | WriteOp

  datatype Fate =
    | Returned(rv: int) // completed synchronously
    | Pending
    | Ran(rv: int)      // completed through its callback
    | Cancelled         // dropped by Close
    | Lost              // answered as pending, but no slot holds it

  /** What the system call returns, and the error with which watching the descriptor fails. */
  datatype Answer = Answer(rv: int, watchError: Option<int>)

  /** The callback slots. */
  datatype Slots = Slots(accept: Option<nat>, read: Option<nat>, write: Option<nat>)

  datatype Watchers = Watchers(accept: bool, read: bool, write: bool)

  datatype Socket = Socket(
    open: bool,
    peer: bool,
    waitingConnect: bool,
    slots: Slots,
    watchers: Watchers,
    fates: seq<Fate>,
    runs: seq<(nat, int)>)

  const FRESH: Socket := Socket(false, false, false, Slots(None, None, None), Watchers(false, false, false), [], [])

  // ---- Steps ----

  function Slot(slots: Slots, k: Kind): Option<nat> {
    match k
    case AcceptOp => slots.accept
    case ReadOp => slots.read
    case ConnectOp | WriteOp => slots.write
  }

  function SetSlot(slots: Slots, k: Kind, v: Option<nat>): Slots {
    match k
    case AcceptOp => slots.(accept := v)
    case ReadOp => slots.(read := v)
    case ConnectOp | WriteOp => slots.(write := v)
  }

  function SetWatcher(w: Watchers, k: Kind, on: bool): Watchers {
    match k
    case AcceptOp => w.(accept := on)
    case ReadOp => w.(read := on)
    case ConnectOp | WriteOp => w.(write := on)
  }

  /** What the operation checks of its caller. */
  predicate MayIssue(s: Socket, k: Kind) {
    s.open && match k
    case AcceptOp => s.slots.accept.None?
    case ConnectOp => !s.waitingConnect && !s.peer
    case ReadOp => !s.waitingConnect && s.slots.read.None?
    case WriteOp => !s.waitingConnect && s.slots.write.None?
  }

  function Mark(fates: seq<Fate>, slot: Option<nat>, f: Fate): seq<Fate> {
    if slot.Some? && slot.value < |fates| then fates[slot.value := f] else fates
  }

  /** The value that the operation returns. */
  function ReturnValue(a: Answer): int {
    if a.rv == ERR_IO_PENDING && a.watchError.Some? then a.watchError.value else a.rv
  }

  predicate Waits(a: Answer) {
    a.rv == ERR_IO_PENDING && a.watchError.None?
  }

  function Issue(s: Socket, k: Kind, a: Answer): Socket {
    var s := if k.ConnectOp? then s.(peer := true) else s;
    if !Waits(a) then
      s.(fates := s.fates + [if ReturnValue(a) == ERR_IO_PENDING then Lost else Returned(ReturnValue(a))])
    else
      s.(slots := SetSlot(s.slots, k, Some(|s.fates|)),
         watchers := SetWatcher(s.watchers, k, true),
         waitingConnect := s.waitingConnect || k.ConnectOp?,
         fates := Mark(s.fates, Slot(s.slots, k), Lost) + [Pending])
  }

  /** The descriptor is ready and the retried system call gives rv. */
  function Finish(s: Socket, k: Kind, rv: int): Socket
    requires Slot(s.slots, k).Some?
  {
    if rv == ERR_IO_PENDING then s
    else
      var id := Slot(s.slots, k).value;
      s.(slots := SetSlot(s.slots, k, None),
         watchers := SetWatcher(s.watchers, k, false),
         waitingConnect := s.waitingConnect && !k.ConnectOp?,
         fates := Mark(s.fates, Some(id), Ran(rv)),
         runs := s.runs + [(id, rv)])
  }

  function CancelAll(fates: seq<Fate>, slots: Slots): seq<Fate> {
    Mark(Mark(Mark(fates, slots.accept, Cancelled), slots.read, Cancelled), slots.write, Cancelled)
  }

  function Closed(s: Socket): Socket {
    FRESH.(fates := CancelAll(s.fates, s.slots), runs := s.runs)
  }

  // ---- The object ----

  /** What the owner of a socket may do, also from inside a callback. */
  datatype Act = Open | Call(kind: Kind, answer: Answer) | Close

  function Do(s: Socket, act: Act): Socket {
    match act
    case Open => if s.open then s else s.(open := true)
    case Call(k, a) => if MayIssue(s, k) then Issue(s, k, a) else s
    case Close => Closed(s)
  }

  function DoAll(s: Socket, acts: seq<Act>): Socket
    decreases |acts|
  {
    if acts == [] then s else DoAll(Do(s, acts[0]), acts[1..])
  }

  /** Which operation a ready descriptor completes. */
  function Readable(s: Socket): Option<Kind> {
    if s.slots.accept.Some? then Some(AcceptOp) else if s.slots.read.Some? then Some(ReadOp) else None
  }

  function Writable(s: Socket): Option<Kind> {
    if s.slots.write.None? then None else if s.waitingConnect then Some(ConnectOp) else Some(WriteOp)
  }

  class SocketLibevent {
    var socketOpen: bool
    var peerAddress: bool
    var waitingConnect: bool
    var acceptCallback: Option<nat>
    var readCallback: Option<nat>
    var writeCallback: Option<nat>
    var watchers: Watchers
    /** What became of each operation, and every run of a callback. */
    var fates: seq<Fate>
    var runs: seq<(nat, int)>

    function Value(): Socket
      reads this
    {
      Socket(socketOpen, peerAddress, waitingConnect, Slots(acceptCallback, readCallback, writeCallback), watchers,
             fates, runs)
    }

    constructor ()
      ensures Value() == FRESH
    {
      socketOpen, peerAddress, waitingConnect := false, false, false;
      acceptCallback, readCallback, writeCallback := None, None, None;
      watchers := Watchers(false, false, false);
      fates, runs := [], [];
    }

    /** Records an operation that does not wait. */
    method Settle(rv: int) returns (r: int)
      modifies this`fates
      ensures r == rv && fates == old(fates) + [if rv == ERR_IO_PENDING then Lost else Returned(rv)]
    {
      fates := fates + [if rv == ERR_IO_PENDING then Lost else Returned(rv)];
      r := rv;
    }

    method Accept(a: Answer) returns (rv: int)
      requires MayIssue(Value(), AcceptOp)
      modifies this
      ensures Value() == Issue(old(Value()), AcceptOp, a) && rv == ReturnValue(a)
      ensures runs == old(runs)
      ensures readCallback == old(readCallback) && writeCallback == old(writeCallback)
      ensures if a.rv == ERR_IO_PENDING && a.watchError.None? then
                && rv == ERR_IO_PENDING && acceptCallback == Some(|old(fates)|)
                && watchers == old(watchers).(accept := true)
                && fates == old(fates) + [Pending]
              else
                && rv == (if a.rv != ERR_IO_PENDING then a.rv else a.watchError.value)
                && acceptCallback == old(acceptCallback) && watchers == old(watchers)
                && waitingConnect == old(waitingConnect)
                && fates == old(fates) + [if rv == ERR_IO_PENDING then Lost else Returned(rv)]
    {
      if a.rv != ERR_IO_PENDING {
        rv := Settle(a.rv);
        return;
      }
      if a.watchError.Some? {
        rv := Settle(a.watchError.value);
        return;
      }
      watchers := watchers.(accept := true);
      acceptCallback := Some(|fates|);
      fates := fates + [Pending];
      return ERR_IO_PENDING;
    }

    method Connect(a: Answer) returns (rv: int)
      requires MayIssue(Value(), ConnectOp)
      modifies this
      ensures Value() == Issue(old(Value()), ConnectOp, a) && rv == ReturnValue(a)
      ensures peerAddress
      ensures runs == old(runs)
      ensures acceptCallback == old(acceptCallback) && readCallback == old(readCallback)
      ensures if a.rv == ERR_IO_PENDING && a.watchError.None? then
                && rv == ERR_IO_PENDING && writeCallback == Some(|old(fates)|)
                && watchers == old(watchers).(write := true)
                && |fates| == |old(fates)| + 1
                && waitingConnect && fates[|old(fates)|] == Pending
                && forall i :: 0 <= i < |old(fates)| && old(writeCallback) != Some(i) ==> fates[i] == old(fates)[i]
              else
                && rv == (if a.rv != ERR_IO_PENDING then a.rv else a.watchError.value)
                && writeCallback == old(writeCallback) && watchers == old(watchers)
                && waitingConnect == old(waitingConnect)
                && fates == old(fates) + [if rv == ERR_IO_PENDING then Lost else Returned(rv)]
    {
      peerAddress := true;
      if a.rv != ERR_IO_PENDING {
        rv := Settle(a.rv);
        return;
      }
      if a.watchError.Some? {
        rv := Settle(a.watchError.value);
        return;
      }
      watchers := watchers.(write := true);
      var id := |fates|;
      fates := Mark(fates, writeCallback, Lost) + [Pending];
      writeCallback := Some(id);
      waitingConnect := true;
      return ERR_IO_PENDING;
    }

    method Read(a: Answer) returns (rv: int)
      requires MayIssue(Value(), ReadOp)
      modifies this
      ensures Value() == Issue(old(Value()), ReadOp, a) && rv == ReturnValue(a)
      ensures runs == old(runs)
      ensures acceptCallback == old(acceptCallback) && writeCallback == old(writeCallback)
      ensures if a.rv == ERR_IO_PENDING && a.watchError.None? then
                && rv == ERR_IO_PENDING && readCallback == Some(|old(fates)|)
                && watchers == old(watchers).(read := true)
                && fates == old(fates) + [Pending]
              else
                && rv == (if a.rv != ERR_IO_PENDING then a.rv else a.watchError.value)
                && readCallback == old(readCallback) && watchers == old(watchers)
                && waitingConnect == old(waitingConnect)
                && fates == old(fates) + [if rv == ERR_IO_PENDING then Lost else Returned(rv)]
    {
      if a.rv != ERR_IO_PENDING {
        rv := Settle(a.rv);
        return;
      }
      if a.watchError.Some? {
        rv := Settle(a.watchError.value);
        return;
      }
      watchers := watchers.(read := true);
      readCallback := Some(|fates|);
      fates := fates + [Pending];
      return ERR_IO_PENDING;
    }

    method Write(a: Answer) returns (rv: int)
      requires MayIssue(Value(), WriteOp)
      modifies this
      ensures Value() == Issue(old(Value()), WriteOp, a) && rv == ReturnValue(a)
      ensures runs == old(runs)
      ensures acceptCallback == old(acceptCallback) && readCallback == old(readCallback)
      ensures if a.rv == ERR_IO_PENDING && a.watchError.None? then
                && rv == ERR_IO_PENDING && writeCallback == Some(|old(fates)|)
                && watchers == old(watchers).(write := true)
                && fates == old(fates) + [Pending]
              else
                && rv == (if a.rv != ERR_IO_PENDING then a.rv else a.watchError.value)
                && writeCallback == old(writeCallback) && watchers == old(watchers)
                && waitingConnect == old(waitingConnect)
                && fates == old(fates) + [if rv == ERR_IO_PENDING then Lost else Returned(rv)]
    {
      if a.rv == ERR_IO_PENDING {
        rv := WaitForWrite(a.watchError);
      } else {
        rv := Settle(a.rv);
      }
    }

    method WaitForWrite(watchError: Option<int>) returns (rv: int)
      requires socketOpen && writeCallback.None?
      modifies this
      ensures Value() == Issue(old(Value()), WriteOp, Answer(ERR_IO_PENDING, watchError))
      ensures rv == ReturnValue(Answer(ERR_IO_PENDING, watchError))
    {
      if watchError.Some? {
        rv := Settle(watchError.value);
        return;
      }
      watchers := watchers.(write := true);
      writeCallback := Some(|fates|);
      fates := fates + [Pending];
      return ERR_IO_PENDING;
    }

    method StopWatchingAndCleanUp()
      modifies this
      ensures Value() == Closed(old(Value())).(open := old(socketOpen))
      ensures acceptCallback == None && readCallback == None && writeCallback == None
      ensures watchers == Watchers(false, false, false) && !waitingConnect && !peerAddress
      ensures runs == old(runs) && |fates| == |old(fates)|
      ensures forall i :: 0 <= i < |fates| ==>
                fates[i] == if InSlot(old(Value()).slots, i) then Cancelled else old(fates)[i]
    {
      watchers := Watchers(false, false, false);
      if acceptCallback.Some? {
        fates := Mark(fates, acceptCallback, Cancelled);
        acceptCallback := None;
      }
      if readCallback.Some? {
        fates := Mark(fates, readCallback, Cancelled);
        readCallback := None;
      }
      if writeCallback.Some? {
        fates := Mark(fates, writeCallback, Cancelled);
        writeCallback := None;
      }
      waitingConnect := false;
      peerAddress := false;
      AllCancelled(old(fates), old(Value()).slots);
    }

    method CloseSocket()
      modifies this
      ensures Value() == Closed(old(Value())) && !socketOpen && runs == old(runs)
      ensures acceptCallback == None && readCallback == None && writeCallback == None
    {
      StopWatchingAndCleanUp();
      if socketOpen {
        socketOpen := false;
      }
    }

    /** Runs the callback of operation id, which does acts; nothing of the caller follows. */
    method RunCallback(id: nat, rv: int, acts: seq<Act>)
      modifies this
      ensures var ran := old(Value()).(fates := Mark(old(fates), Some(id), Ran(rv)), runs := old(runs) + [(id, rv)]);
              Value() == DoAll(ran, acts)
      ensures runs == old(runs) + [(id, rv)]
    {
      fates := Mark(fates, Some(id), Ran(rv));
      runs := runs + [(id, rv)];
      ActsRunNothing(Value(), acts);
      Perform(acts);
    }

    method AcceptCompleted(rv: int, acts: seq<Act>)
      requires acceptCallback.Some?
      modifies this
      ensures Value() == Completed(old(Value()), AcceptOp, rv, acts)
      ensures rv == ERR_IO_PENDING ==> Value() == old(Value())
      ensures rv != ERR_IO_PENDING ==> runs == old(runs) + [(old(acceptCallback).value, rv)]
      ensures rv != ERR_IO_PENDING && acts == [] ==>
                acceptCallback == None && watchers == old(watchers).(accept := false)
      ensures rv != ERR_IO_PENDING && acts == [] && old(acceptCallback).value < |old(fates)| ==>
                fates == old(fates)[old(acceptCallback).value := Ran(rv)]
    {
      if rv == ERR_IO_PENDING {
        return;
      }
      watchers := watchers.(accept := false);
      var callback := acceptCallback.value;
      acceptCallback := None;
      RunCallback(callback, rv, acts);
    }

    method ConnectCompleted(rv: int, acts: seq<Act>)
      requires writeCallback.Some?
      modifies this
      ensures Value() == Completed(old(Value()), ConnectOp, rv, acts)
      ensures rv == ERR_IO_PENDING ==> Value() == old(Value())
      ensures rv != ERR_IO_PENDING ==> runs == old(runs) + [(old(writeCallback).value, rv)]
      ensures rv != ERR_IO_PENDING && acts == [] ==>
                writeCallback == None && watchers == old(watchers).(write := false) && !waitingConnect
      ensures rv != ERR_IO_PENDING && acts == [] && old(writeCallback).value < |old(fates)| ==>
                fates == old(fates)[old(writeCallback).value := Ran(rv)]
    {
      if rv == ERR_IO_PENDING {
        return;
      }
      watchers := watchers.(write := false);
      waitingConnect := false;
      var callback := writeCallback.value;
      writeCallback := None;
      RunCallback(callback, rv, acts);
    }

    method ReadCompleted(rv: int, acts: seq<Act>)
      requires readCallback.Some?
      modifies this
      ensures Value() == Completed(old(Value()), ReadOp, rv, acts)
      ensures rv == ERR_IO_PENDING ==> Value() == old(Value())
      ensures rv != ERR_IO_PENDING ==> runs == old(runs) + [(old(readCallback).value, rv)]
      ensures rv != ERR_IO_PENDING && acts == [] ==>
                readCallback == None && watchers == old(watchers).(read := false)
      ensures rv != ERR_IO_PENDING && acts == [] && old(readCallback).value < |old(fates)| ==>
                fates == old(fates)[old(readCallback).value := Ran(rv)]
    {
      if rv == ERR_IO_PENDING {
        return;
      }
      watchers := watchers.(read := false);
      var callback := readCallback.value;
      readCallback := None;
      RunCallback(callback, rv, acts);
    }

    method WriteCompleted(rv: int, acts: seq<Act>)
      requires writeCallback.Some?
      modifies this
      ensures Value() == Completed(old(Value()), WriteOp, rv, acts)
      ensures rv == ERR_IO_PENDING ==> Value() == old(Value())
      ensures rv != ERR_IO_PENDING ==> runs == old(runs) + [(old(writeCallback).value, rv)]
      ensures rv != ERR_IO_PENDING && acts == [] ==>
                writeCallback == None && watchers == old(watchers).(write := false)
      ensures rv != ERR_IO_PENDING && acts == [] && old(writeCallback).value < |old(fates)| ==>
                fates == old(fates)[old(writeCallback).value := Ran(rv)]
    {
      if rv == ERR_IO_PENDING {
        return;
      }
      watchers := watchers.(write := false);
      var callback := writeCallback.value;
      writeCallback := None;
      RunCallback(callback, rv, acts);
    }

    method OnFileCanReadWithoutBlocking(rv: int, acts: seq<Act>)
      requires Readable(Value()).Some?
      modifies this
      ensures Value() == Completed(old(Value()), Readable(old(Value())).value, rv, acts)
      ensures runs == old(runs) + (if rv == ERR_IO_PENDING then []
                                   else if old(acceptCallback).Some? then [(old(acceptCallback).value, rv)]
                                   else [(old(readCallback).value, rv)])
    {
      if acceptCallback.Some? {
        AcceptCompleted(rv, acts);
      } else {
        ReadCompleted(rv, acts);
      }
    }

    method OnFileCanWriteWithoutBlocking(rv: int, acts: seq<Act>)
      requires Writable(Value()).Some?
      modifies this
      ensures Value() == Completed(old(Value()), Writable(old(Value())).value, rv, acts)
      ensures runs == old(runs) + (if rv == ERR_IO_PENDING then [] else [(old(writeCallback).value, rv)])
    {
      if waitingConnect {
        ConnectCompleted(rv, acts);
      } else {
        WriteCompleted(rv, acts);
      }
    }

    method PerformOne(act: Act)
      modifies this
      ensures Value() == Do(old(Value()), act)
    {
      match act {
        case Open =>
          socketOpen := true;
        case Call(k, a) =>
          if MayIssue(Value(), k) {
            match k {
              case AcceptOp => var _ := Accept(a);
              case ConnectOp => var _ := Connect(a);
              case ReadOp => var _ := Read(a);
              case WriteOp => var _ := Write(a);
            }
          }
        case Close =>
          CloseSocket();
      }
    }

    method Perform(acts: seq<Act>)
      modifies this
      ensures Value() == DoAll(old(Value()), acts)
      decreases |acts|
    {
      if acts != [] {
        PerformOne(acts[0]);
        Perform(acts[1..]);
      }
    }
  }

  lemma AllCancelled(fates: seq<Fate>, slots: Slots)
    ensures |CancelAll(fates, slots)| == |fates|
    ensures forall i :: 0 <= i < |fates| ==>
              CancelAll(fates, slots)[i] == if InSlot(slots, i) then Cancelled else fates[i]
  {
  }

  /** Acts run no callback themselves. */
  lemma {:induction false} ActsRunNothing(s: Socket, acts: seq<Act>)
    ensures DoAll(s, acts).runs == s.runs
    decreases |acts|
  {
    if acts != [] {
      ActsRunNothing(Do(s, acts[0]), acts[1..]);
    }
  }

  function Completed(s: Socket, k: Kind, rv: int, acts: seq<Act>): Socket
    requires Slot(s.slots, k).Some?
  {
    if rv == ERR_IO_PENDING then s else DoAll(Finish(s, k, rv), acts)
  }

  // ---- The invariant ----

  predicate InSlot(slots: Slots, i: nat) {
    slots.accept == Some(i) || slots.read == Some(i) || slots.write == Some(i)
  }

  predicate Distinct(slots: Slots) {
    && (slots.accept.Some? ==> slots.accept != slots.read && slots.accept != slots.write)
    && (slots.read.Some? ==> slots.read != slots.write)
  }

  /** Operation i is pending exactly while a slot holds it, and completes with a real result. */
  ghost predicate FateOf(slots: Slots, fates: seq<Fate>, i: nat)
    requires i < |fates|
  {
    && (fates[i] == Pending <==> InSlot(slots, i))
    && (fates[i].Returned? ==> fates[i].rv != ERR_IO_PENDING)
    && (fates[i].Ran? ==> fates[i].rv != ERR_IO_PENDING)
  }

  ghost predicate Fates(slots: Slots, fates: seq<Fate>) {
    forall i :: 0 <= i < |fates| ==> FateOf(slots, fates, i)
  }

  predicate InRange(slot: Option<nat>, n: nat) {
    slot.Some? ==> slot.value < n
  }

  /** Slots hold issued operations, at most one each. */
  predicate SlotsSound(slots: Slots, n: nat) {
    Distinct(slots) && InRange(slots.accept, n) && InRange(slots.read, n) && InRange(slots.write, n)
  }

  predicate Watched(s: Socket) {
    && s.watchers == Watchers(s.slots.accept.Some?, s.slots.read.Some?, s.slots.write.Some?)
    && (s.waitingConnect ==> s.slots.write.Some?)
    && (!s.open ==> s.slots == Slots(None, None, None))
  }

  ghost predicate RanAt(fates: seq<Fate>, run: (nat, int)) {
    run.0 < |fates| && fates[run.0] == Ran(run.1)
  }

  ghost predicate HasRun(runs: seq<(nat, int)>, i: nat) {
    exists j :: 0 <= j < |runs| && runs[j].0 == i
  }

  /** Exactly the operations whose fate says so ran a callback, once each. */
  ghost predicate RunsOnce(fates: seq<Fate>, runs: seq<(nat, int)>) {
    && (forall j :: 0 <= j < |runs| ==> RanAt(fates, runs[j]))
    && (forall j, k :: 0 <= j < k < |runs| ==> runs[j].0 != runs[k].0)
    && (forall i :: 0 <= i < |fates| && fates[i].Ran? ==> HasRun(runs, i))
  }

  ghost predicate Inv(s: Socket) {
    SlotsSound(s.slots, |s.fates|) && Watched(s) && Fates(s.slots, s.fates) && RunsOnce(s.fates, s.runs)
  }

  // ---- Every step keeps it ----

  /** A change of fates that adds no callback run and touches only operations without one. */
  lemma RunsOnceKept(before: seq<Fate>, after: seq<Fate>, runs: seq<(nat, int)>)
    requires RunsOnce(before, runs) && |before| <= |after|
    requires forall i :: 0 <= i < |before| && before[i].Ran? ==> after[i] == before[i]
    requires forall i :: 0 <= i < |after| && after[i].Ran? ==> i < |before| && before[i].Ran?
    ensures RunsOnce(after, runs)
  {
    forall j | 0 <= j < |runs|
      ensures RanAt(after, runs[j])
    {
      assert RanAt(before, runs[j]);
    }
  }

  lemma IssueAtOnceKeeps(s: Socket, k: Kind, a: Answer)
    requires Inv(s) && MayIssue(s, k) && !Waits(a)
    ensures Inv(Issue(s, k, a))
  {
    var t := Issue(s, k, a);
    forall i | 0 <= i < |t.fates|
      ensures FateOf(t.slots, t.fates, i)
    {
      assert i < |s.fates| ==> FateOf(s.slots, s.fates, i);
    }
    RunsOnceKept(s.fates, t.fates, s.runs);
  }

  lemma IssueToWaitKeeps(s: Socket, k: Kind, a: Answer)
    requires Inv(s) && MayIssue(s, k) && Waits(a)
    ensures Inv(Issue(s, k, a))
  {
    var t := Issue(s, k, a);
    var slot := Slot(s.slots, k);
    if slot.Some? {
      assert FateOf(s.slots, s.fates, slot.value);
    }
    forall i | 0 <= i < |t.fates|
      ensures FateOf(t.slots, t.fates, i)
    {
      assert i < |s.fates| ==> FateOf(s.slots, s.fates, i);
    }
    RunsOnceKept(s.fates, t.fates, s.runs);
  }

  lemma IssueKeeps(s: Socket, k: Kind, a: Answer)
    requires Inv(s) && MayIssue(s, k)
    ensures Inv(Issue(s, k, a))
  {
    if Waits(a) {
      IssueToWaitKeeps(s, k, a);
    } else {
      IssueAtOnceKeeps(s, k, a);
    }
  }

  /** The operation that the system's report on the descriptor completes. */
  predicate Dispatches(s: Socket, k: Kind) {
    Readable(s) == Some(k) || Writable(s) == Some(k)
  }

  lemma FinishKeeps(s: Socket, k: Kind, rv: int)
    requires Inv(s) && Dispatches(s, k)
    ensures Inv(Finish(s, k, rv))
  {
    if rv != ERR_IO_PENDING {
      var t := Finish(s, k, rv);
      var id := Slot(s.slots, k).value;
      assert FateOf(s.slots, s.fates, id);
      forall i | 0 <= i < |t.fates|
        ensures FateOf(t.slots, t.fates, i)
      {
        assert FateOf(s.slots, s.fates, i);
      }
      FinishRunsOnce(s.fates, s.runs, id, rv);
    }
  }

  lemma FinishRunsOnce(fates: seq<Fate>, runs: seq<(nat, int)>, id: nat, rv: int)
    requires RunsOnce(fates, runs) && id < |fates| && fates[id] == Pending
    ensures RunsOnce(fates[id := Ran(rv)], runs + [(id, rv)])
  {
    var after, ran := fates[id := Ran(rv)], runs + [(id, rv)];
    forall j | 0 <= j < |ran|
      ensures RanAt(after, ran[j])
    {
      assert j < |runs| ==> RanAt(fates, runs[j]);
    }
    forall j, k | 0 <= j < k < |ran|
      ensures ran[j].0 != ran[k].0
    {
      assert RanAt(fates, runs[j]);
    }
    forall i | 0 <= i < |after| && after[i].Ran?
      ensures HasRun(ran, i)
    {
      if i == id {
        assert ran[|runs|].0 == id;
      } else {
        assert HasRun(runs, i);
        var j :| 0 <= j < |runs| && runs[j].0 == i;
        assert ran[j].0 == i;
      }
    }
  }

  lemma CancelledFates(fates: seq<Fate>, slots: Slots, i: nat)
    requires i < |fates|
    ensures |CancelAll(fates, slots)| == |fates|
    ensures CancelAll(fates, slots)[i] == if InSlot(slots, i) then Cancelled else fates[i]
  {
  }

  lemma ClosedKeeps(s: Socket)
    requires Inv(s)
    ensures Inv(Closed(s))
  {
    var t := Closed(s);
    forall i | 0 <= i < |s.fates|
      ensures |t.fates| == |s.fates|
      ensures t.fates[i] == if InSlot(s.slots, i) then Cancelled else s.fates[i]
      ensures FateOf(t.slots, t.fates, i)
      ensures InSlot(s.slots, i) <==> s.fates[i] == Pending
    {
      CancelledFates(s.fates, s.slots, i);
      assert FateOf(s.slots, s.fates, i);
    }
    RunsOnceKept(s.fates, t.fates, s.runs);
  }

  // ---- Runs ----

  /** Later in a run: finished operations keep their fate, and past callback runs stay. */
  ghost predicate Extends(s: Socket, t: Socket) {
    && |s.fates| <= |t.fates|
    && (forall i :: 0 <= i < |s.fates| && s.fates[i] != Pending ==> t.fates[i] == s.fates[i])
    && s.runs <= t.runs
  }

  lemma ExtendsTransitive(s: Socket, t: Socket, u: Socket)
    requires Extends(s, t) && Extends(t, u)
    ensures Extends(s, u)
  {
  }

  lemma DoKeeps(s: Socket, act: Act)
    requires Inv(s)
    ensures Inv(Do(s, act)) && Extends(s, Do(s, act))
  {
    match act {
      case Open =>
      case Call(k, a) =>
        if MayIssue(s, k) {
          IssueKeeps(s, k, a);
          if Slot(s.slots, k).Some? {
            assert FateOf(s.slots, s.fates, Slot(s.slots, k).value);
          }
        }
      case Close =>
        ClosedKeeps(s);
        forall i | 0 <= i < |s.fates| && s.fates[i] != Pending
          ensures Closed(s).fates[i] == s.fates[i]
        {
          assert FateOf(s.slots, s.fates, i);
          CancelledFates(s.fates, s.slots, i);
        }
        if s.fates != [] {
          CancelledFates(s.fates, s.slots, 0);
        }
    }
  }

  lemma {:induction false} DoAllKeeps(s: Socket, acts: seq<Act>)
    requires Inv(s)
    ensures Inv(DoAll(s, acts)) && Extends(s, DoAll(s, acts))
    decreases |acts|
  {
    if acts != [] {
      DoKeeps(s, acts[0]);
      DoAllKeeps(Do(s, acts[0]), acts[1..]);
      ExtendsTransitive(s, Do(s, acts[0]), DoAll(s, acts));
    }
  }

  lemma CompletedKeeps(s: Socket, k: Kind, rv: int, acts: seq<Act>)
    requires Inv(s) && Dispatches(s, k)
    ensures Inv(Completed(s, k, rv, acts)) && Extends(s, Completed(s, k, rv, acts))
  {
    FinishKeeps(s, k, rv);
    if rv != ERR_IO_PENDING {
      assert FateOf(s.slots, s.fates, Slot(s.slots, k).value);
      assert Extends(s, Finish(s, k, rv));
      DoAllKeeps(Finish(s, k, rv), acts);
      ExtendsTransitive(s, Finish(s, k, rv), Completed(s, k, rv, acts));
    }
  }

  /** The owner acts, or the system reports the descriptor ready and the callback, if it runs, acts. */
  datatype Event = Owner(act: Act) | CanRead(rv: int, acts: seq<Act>) | CanWrite(rv: int, acts: seq<Act>)

  /** The system reports only what is watched. */
  predicate Delivered(w: Watchers, e: Event) {
    match e
    case Owner(_) => true
    case CanRead(_, _) => w.accept || w.read
    case CanWrite(_, _) => w.write
  }

  /** Wherever a report is delivered, a callback waits for it, as the handlers demand. */
  lemma ReportsFindCallback(s: Socket, e: Event)
    requires Watched(s) && Delivered(s.watchers, e)
    ensures e.CanRead? ==> Readable(s).Some?
    ensures e.CanWrite? ==> Writable(s).Some?
  {
  }

  function Step(s: Socket, e: Event): Socket
    requires Watched(s)
  {
    if !Delivered(s.watchers, e) then s
    else match e
      case Owner(act) => Do(s, act)
      case CanRead(rv, acts) => Completed(s, Readable(s).value, rv, acts)
      case CanWrite(rv, acts) => Completed(s, Writable(s).value, rv, acts)
  }

  lemma StepKeeps(s: Socket, e: Event)
    requires Inv(s)
    ensures Inv(Step(s, e)) && Extends(s, Step(s, e))
  {
    if Delivered(s.watchers, e) {
      match e {
        case Owner(act) => DoKeeps(s, act);
        case CanRead(rv, acts) => CompletedKeeps(s, Readable(s).value, rv, acts);
        case CanWrite(rv, acts) => CompletedKeeps(s, Writable(s).value, rv, acts);
      }
    }
  }

  ghost function After(s: Socket, events: seq<Event>): (t: Socket)
    requires Inv(s)
    ensures Inv(t) && Extends(s, t)
    decreases |events|
  {
    if events == [] then s
    else
      StepKeeps(s, events[0]);
      var next := Step(s, events[0]);
      var t := After(next, events[1..]);
      ExtendsTransitive(s, next, t);
      t
  }

  /** The result with which an event has a callback run, and the operation whose callback it is. */
  lemma StepRuns(s: Socket, e: Event)
    requires Inv(s)
    ensures e.CanRead? && e.rv != ERR_IO_PENDING && s.slots.accept.Some? ==>
              Step(s, e).runs == s.runs + [(s.slots.accept.value, e.rv)]
    ensures e.CanRead? && e.rv != ERR_IO_PENDING && s.slots.accept.None? && s.slots.read.Some? ==>
              Step(s, e).runs == s.runs + [(s.slots.read.value, e.rv)]
    ensures e.CanWrite? && e.rv != ERR_IO_PENDING && s.slots.write.Some? ==>
              Step(s, e).runs == s.runs + [(s.slots.write.value, e.rv)]
    ensures e.Owner? || e.rv == ERR_IO_PENDING ==> Step(s, e).runs == s.runs
    ensures Step(s, e).runs != s.runs ==> CarriesResult(e, Step(s, e).runs[|s.runs|].1)
    ensures |Step(s, e).runs| <= |s.runs| + 1
  {
    if Delivered(s.watchers, e) {
      match e {
        case Owner(act) => ActsRunNothing(s, [act]);
        case CanRead(rv, acts) =>
          if rv != ERR_IO_PENDING {
            ActsRunNothing(Finish(s, Readable(s).value, rv), acts);
          }
        case CanWrite(rv, acts) =>
          if rv != ERR_IO_PENDING {
            ActsRunNothing(Finish(s, Writable(s).value, rv), acts);
          }
      }
    }
  }

  /** The system reported the descriptor ready and the retried call gave rv. */
  predicate CarriesResult(e: Event, rv: int) {
    !e.Owner? && e.rv == rv
  }

  /** Every callback is run with the result that some report of the system gave. */
  lemma {:induction false} RunsCarryResults(s: Socket, events: seq<Event>, j: nat) returns (i: nat)
    requires Inv(s) && |s.runs| <= j < |After(s, events).runs|
    ensures i < |events| && CarriesResult(events[i], After(s, events).runs[j].1)
    decreases |events|
  {
    StepKeeps(s, events[0]);
    StepRuns(s, events[0]);
    var next := Step(s, events[0]);
    var t := After(next, events[1..]);
    if j < |next.runs| {
      i := 0;
      assert t.runs[j] == next.runs[j];
    } else {
      i := RunsCarryResults(next, events[1..], j);
      i := i + 1;
    }
  }

  /** Every run of the object keeps the invariant and is the run of its steps. */
  method RunSocket(events: seq<Event>) returns (s: Socket)
    ensures Inv(FRESH) && s == After(FRESH, events) && Inv(s)
  {
    var socket := new SocketLibevent();
    FreshInv();
    for n := 0 to |events|
      invariant Inv(socket.Value()) && After(socket.Value(), events[n..]) == After(FRESH, events)
    {
      var e := events[n];
      ghost var before := socket.Value();
      StepKeeps(before, e);
      if Delivered(before.watchers, e) {
        ReportsFindCallback(before, e);
      }
      if Delivered(socket.watchers, e) {
        match e {
          case Owner(act) => socket.PerformOne(act);
          case CanRead(rv, acts) => socket.OnFileCanReadWithoutBlocking(rv, acts);
          case CanWrite(rv, acts) => socket.OnFileCanWriteWithoutBlocking(rv, acts);
        }
      }
      assert socket.Value() == Step(before, e);
      assert events[n..][1..] == events[n + 1..];
    }
    s := socket.Value();
  }

  lemma FreshInv()
    ensures Inv(FRESH)
  {
  }

  /** A callback of an operation that was not pending at c ran before c. */
  lemma AlreadyRan(c: Socket, t: Socket, j: nat)
    requires Inv(c) && Inv(t) && Extends(c, t)
    requires j < |t.runs| && t.runs[j].0 < |c.fates| && c.fates[t.runs[j].0] != Pending
    ensures j < |c.runs|
  {
    var i := t.runs[j].0;
    assert RanAt(t.fates, t.runs[j]);
    assert HasRun(c.runs, i);
    var m :| 0 <= m < |c.runs| && c.runs[m].0 == i;
    assert t.runs[m] == c.runs[m];
    assert m == j;
  }

  /** Once closed, no operation issued before runs its callback any more. */
  lemma NoneRunsAfterClose(s: Socket, later: seq<Event>)
    requires Inv(s)
    ensures Inv(Closed(s))
    ensures var t := After(Closed(s), later);
            s.runs <= t.runs && forall j :: |s.runs| <= j < |t.runs| ==> t.runs[j].0 >= |s.fates|
  {
    ClosedKeeps(s);
    var c := Closed(s);
    var t := After(c, later);
    if s.fates != [] {
      CancelledFates(s.fates, s.slots, 0);
    }
    forall j | |s.runs| <= j < |t.runs|
      ensures t.runs[j].0 >= |s.fates|
    {
      if t.runs[j].0 < |s.fates| {
        assert FateOf(c.slots, c.fates, t.runs[j].0);
        AlreadyRan(c, t, j);
      }
    }
  }

  /** From inside its callback an operation may be issued again; Connect needs a Close before. */
  lemma ReissueIsSafe(s: Socket, k: Kind, rv: int)
    requires Inv(s) && Dispatches(s, k) && rv != ERR_IO_PENDING
    ensures Inv(Finish(s, k, rv)) && Slot(Finish(s, k, rv).slots, k) == None
    ensures !k.ConnectOp? && !(k.ReadOp? && s.waitingConnect) ==> MayIssue(Finish(s, k, rv), k)
  {
    FinishKeeps(s, k, rv);
  }

  // ---- When an operation is lost ----

  ghost predicate HasLost(s: Socket) {
    exists i :: 0 <= i < |s.fates| && s.fates[i] == Lost
  }

  /**
   Two calls lose an operation: one that cannot watch the descriptor while the
   error left behind says pending, and a Connect that has to wait while a Write waits.
   */
  predicate Loses(s: Socket, act: Act) {
    && act.Call? && MayIssue(s, act.kind)
    && if Waits(act.answer) then act.kind.ConnectOp? && s.slots.write.Some?
       else ReturnValue(act.answer) == ERR_IO_PENDING
  }

  lemma LostExactly(s: Socket, act: Act)
    requires Inv(s)
    ensures HasLost(Do(s, act)) <==> HasLost(s) || Loses(s, act)
  {
    var t := Do(s, act);
    if HasLost(s) {
      var i :| 0 <= i < |s.fates| && s.fates[i] == Lost;
      DoKeeps(s, act);
      assert t.fates[i] == Lost;
    } else if Loses(s, act) {
      if Waits(act.answer) {
        var w := s.slots.write.value;
        assert t.fates[w] == Lost;
      } else {
        assert t.fates[|s.fates|] == Lost;
      }
    } else if act.Close? && s.fates != [] {
      forall i | 0 <= i < |s.fates|
        ensures t.fates[i] != Lost
      {
        CancelledFates(s.fates, s.slots, i);
      }
    }
  }

  lemma FinishLosesNothing(s: Socket, k: Kind, rv: int)
    requires Inv(s) && Dispatches(s, k) && rv != ERR_IO_PENDING
    ensures HasLost(Finish(s, k, rv)) <==> HasLost(s)
  {
    var t, id := Finish(s, k, rv), Slot(s.slots, k).value;
    assert FateOf(s.slots, s.fates, id);
    forall i | 0 <= i < |s.fates|
      ensures s.fates[i] == Lost <==> t.fates[i] == Lost
    {
    }
    if HasLost(s) {
      var i :| 0 <= i < |s.fates| && s.fates[i] == Lost;
      assert t.fates[i] == Lost;
    }
  }

  /** None of the acts loses an operation when its turn comes. */
  ghost predicate CarefulActs(s: Socket, acts: seq<Act>)
    decreases |acts|
  {
    acts == [] || (!Loses(s, acts[0]) && CarefulActs(Do(s, acts[0]), acts[1..]))
  }

  ghost predicate CarefulStep(s: Socket, e: Event)
    requires Watched(s)
  {
    Delivered(s.watchers, e) ==>
      match e
      case Owner(act) => !Loses(s, act)
      case CanRead(rv, acts) => rv == ERR_IO_PENDING || CarefulActs(Finish(s, Readable(s).value, rv), acts)
      case CanWrite(rv, acts) => rv == ERR_IO_PENDING || CarefulActs(Finish(s, Writable(s).value, rv), acts)
  }

  ghost predicate CarefulRun(s: Socket, events: seq<Event>)
    requires Inv(s)
    decreases |events|
  {
    if events == [] then true
    else
      StepKeeps(s, events[0]);
      CarefulStep(s, events[0]) && CarefulRun(Step(s, events[0]), events[1..])
  }

  lemma {:induction false} ActsLoseExactly(s: Socket, acts: seq<Act>)
    requires Inv(s)
    ensures HasLost(DoAll(s, acts)) <==> HasLost(s) || !CarefulActs(s, acts)
    decreases |acts|
  {
    if acts != [] {
      DoKeeps(s, acts[0]);
      LostExactly(s, acts[0]);
      ActsLoseExactly(Do(s, acts[0]), acts[1..]);
    }
  }

  lemma CompletedLosesExactly(s: Socket, k: Kind, rv: int, acts: seq<Act>)
    requires Inv(s) && Dispatches(s, k) && rv != ERR_IO_PENDING
    ensures HasLost(Completed(s, k, rv, acts)) <==> HasLost(s) || !CarefulActs(Finish(s, k, rv), acts)
  {
    FinishKeeps(s, k, rv);
    FinishLosesNothing(s, k, rv);
    ActsLoseExactly(Finish(s, k, rv), acts);
  }

  lemma StepLosesExactly(s: Socket, e: Event)
    requires Inv(s)
    ensures HasLost(Step(s, e)) <==> HasLost(s) || !CarefulStep(s, e)
  {
    if Delivered(s.watchers, e) {
      match e {
        case Owner(act) => LostExactly(s, act);
        case CanRead(rv, acts) =>
          if rv != ERR_IO_PENDING {
            CompletedLosesExactly(s, Readable(s).value, rv, acts);
          }
        case CanWrite(rv, acts) =>
          if rv != ERR_IO_PENDING {
            CompletedLosesExactly(s, Writable(s).value, rv, acts);
          }
      }
    }
  }

  /** A run loses an operation exactly when one of its calls, callbacks included, is of the two losing kinds. */
  lemma {:induction false} RunsLoseExactly(s: Socket, events: seq<Event>)
    requires Inv(s)
    ensures HasLost(After(s, events)) <==> HasLost(s) || !CarefulRun(s, events)
    decreases |events|
  {
    if events != [] {
      StepKeeps(s, events[0]);
      StepLosesExactly(s, events[0]);
      RunsLoseExactly(Step(s, events[0]), events[1..]);
    }
  }

  /**
   In a careful run every operation returned a result at once, waits in exactly
   one slot, ran its callback, or was cancelled; and callbacks ran only for the third kind.
   */
  lemma EveryOperationHasOneFate(events: seq<Event>, i: nat)
    requires Inv(FRESH) && CarefulRun(FRESH, events) && i < |After(FRESH, events).fates|
    ensures var s := After(FRESH, events);
            var f := s.fates[i];
            && (f.Returned? || f.Pending? || f.Ran? || f.Cancelled?)
            && (f.Pending? <==> InSlot(s.slots, i))
            && (f.Ran? <==> HasRun(s.runs, i))
            && (f.Returned? || f.Ran? ==> f.rv != ERR_IO_PENDING)
  {
    var s := After(FRESH, events);
    RunsLoseExactly(FRESH, events);
    assert FateOf(s.slots, s.fates, i);
    assert s.fates[i] != Lost;
    if HasRun(s.runs, i) {
      var j :| 0 <= j < |s.runs| && s.runs[j].0 == i;
      assert RanAt(s.fates, s.runs[j]);
    }
  }

  /** A Read that cannot be watched while the error left behind means pending: no callback will come. */
  lemma WatchErrorLosesRead()
    ensures var read := Call(ReadOp, Answer(ERR_IO_PENDING, Some(ERR_IO_PENDING)));
            var s := DoAll(FRESH, [Open, read]);
            && ReturnValue(read.answer) == ERR_IO_PENDING
            && s.fates == [Lost] && s.slots == Slots(None, None, None)
  {
    var read := Call(ReadOp, Answer(ERR_IO_PENDING, Some(ERR_IO_PENDING)));
    var s1 := Do(FRESH, Open);
    var s2 := Do(s1, read);
    assert s2.fates == [Lost];
    assert DoAll(s2, []) == s2;
    assert DoAll(s1, [read]) == s2;
    assert [Open, read][1..] == [read];
  }

  /** A Connect that has to wait takes the slot of a waiting Write, whose callback then never runs. */
  lemma ConnectDisplacesWrite()
    ensures var pending := Answer(ERR_IO_PENDING, None);
            var s := DoAll(FRESH, [Open, Call(WriteOp, pending), Call(ConnectOp, pending)]);
            s.fates == [Lost, Pending] && s.slots == Slots(None, None, Some(1))
  {
    var pending := Answer(ERR_IO_PENDING, None);
    var write, connect := Call(WriteOp, pending), Call(ConnectOp, pending);
    var s1 := Do(FRESH, Open);
    var s2 := Do(s1, write);
    assert s2.fates == [Pending];
    var s3 := Do(s2, connect);
    assert s3.fates == [Lost, Pending];
    assert DoAll(s3, []) == s3;
    assert DoAll(s2, [connect]) == s3;
    assert [write, connect][1..] == [connect];
    assert DoAll(s1, [write, connect]) == s3;
    assert [Open, write, connect][1..] == [write, connect];
  }
}
