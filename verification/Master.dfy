/**
 DNBuilder and the main-thread half of MasterMainRunner.  One main-thread task
 is one method call; what other threads, slaves and subprocesses do between two
 tasks shows only in which call comes next.
 */
module Masters {
  import opened CommandExecutors
  import opened MasterStates
  import opened Options
  import opened Plans
  import opened Sets

  /** What one task or loop may do: edges are only added to the logs. */
  ghost predicate Advances(s: Master, s': Master) {
    && s'.g == s.g
    && s.handedOut <= s'.handedOut
    && s.finished <= s'.finished && s.finishLog <= s'.finishLog
    && s.failed <= s'.failed && s.exitFailed <= s'.exitFailed
    && s.buildFinished <= s'.buildFinished
  }

  /** BuildLoop's outcome: the end is reported, and in a run without errors something runs until then. */
  ghost predicate LoopDone(s: Master, s': Master) {
    && s'.buildFinished == s.buildFinished + (if MoreToDo(s') then 0 else 1)
    && (s'.failed == {} && MoreToDo(s') ==> s'.crew.local != map[])
  }

  datatype Started = Nothing | Error | One

  /** How many edges BuildLoop could still start. */
  ghost function Startable(s: Master): nat {
    |s.g.wanted - s.handedOut| + |s.outstanding|
  }

  lemma HandOutStartable(s: Master, e: Edge)
    requires IsReady(s, e)
    ensures Startable(HandOut(s, e)) == Startable(s) - 1
  {
    assert s.g.wanted - s.handedOut == s.g.wanted - (s.handedOut + {e}) + {e};
  }

  /** What starting edges leaves alone. */
  ghost predicate SameElsewhere(s: Master, s': Master) {
    && s'.remote == s.remote && s'.crew.exiting == s.crew.exiting
    && s'.buildFinished == s.buildFinished && s'.exitFailed == s.exitFailed
  }

  /** Handing edges to slaves does not touch what runs or is finished. */
  ghost predicate OnlyRemote(s: Master, s': Master) {
    && s'.g == s.g && s'.crew == s.crew && s'.failed == s.failed
    && s'.exitFailed == s.exitFailed && s'.buildFinished == s.buildFinished
    && s'.finished == s.finished && s'.finishLog == s.finishLog
    && s.handedOut <= s'.handedOut && s.outstanding <= s'.outstanding
    && s'.remote.slaves == s.remote.slaves && s.remote.inFlight.Keys <= s'.remote.inFlight.Keys
  }

  /** e is a ready edge, or the oldest outstanding one if no edge is ready. */
  ghost predicate TakesNext(s: Master, s': Master, e: Edge) {
    || (IsReady(s, e) && s'.handedOut == s.handedOut + {e} && s'.outstanding == s.outstanding)
    || ((forall f :: !IsReady(s, f)) && s.outstanding != [] && e == s.outstanding[0]
        && s'.handedOut == s.handedOut && s'.outstanding == s.outstanding[1..])
  }

  ghost predicate NoneReady(s: Master) {
    forall e :: !IsReady(s, e)
  }

  lemma NoneReadyLater(s: Master, s': Master)
    requires NoneReady(s) && OnlyRemote(s, s')
    ensures NoneReady(s')
  {
    forall e
      ensures !IsReady(s', e)
    {
      assert !IsReady(s, e);
    }
  }

  /** A ready edge has not been sent anywhere. */
  lemma ReadyIsFresh(s: Master, e: Edge)
    requires Inv(s, {}) && IsReady(s, e)
    ensures e !in s.remote.inFlight
  {
  }

  function OneMore(pending: map<nat, int>, connection: nat): map<nat, int> {
    pending[connection := if connection in pending then pending[connection] + 1 else 1]
  }

  /**
   Each waiting slave that is not in later has been served once: it got an edge,
   or it waits for one edge more, or there is no more to do.
   */
  ghost predicate Served(
    pending: map<nat, int>, pending': map<nat, int>, later: set<nat>, to: seq<nat>, more: bool)
  {
    && pending'.Keys == pending.Keys && later <= pending.Keys
    && (forall c :: c in pending ==> ServedOne(pending[c], pending'[c], c in later, Count(to, c), more))
    && (forall c :: c in to ==> c in pending)
  }

  ghost predicate ServedOne(waiting: int, waiting': int, later: bool, edges: nat, more: bool) {
    if later || waiting <= 0 then waiting' == waiting && edges == 0
    else if edges > 0 then edges == 1 && waiting' == waiting - 1
    else waiting' == waiting + if more then 1 else 0
  }

  lemma SentIsDispatched(s: Master, e: Edge, connection: nat)
    requires e !in s.remote.inFlight && e in s.g.hash
    ensures OnlyRemote(s, Push(SendRemote(s, e, connection), e))
    ensures Dispatched(s, Push(SendRemote(s, e, connection), e), [connection])
  {
    var s' := Push(SendRemote(s, e, connection), e);
    assert s'.outstanding[|s.outstanding|..] == [e];
    assert AskedFor([e], [connection], s.remote, e) || connection !in s.remote.slaves by {
      assert [e][0] == e && [connection][0] == connection;
    }
  }

  ghost predicate Serving(
    s: Master, pending: map<nat, int>, s': Master, pending': map<nat, int>, later: set<nat>, to: seq<nat>)
  {
    OnlyRemote(s, s') && Dispatched(s, s', to) && Served(pending, pending', later, to, MoreToDo(s'))
  }

  lemma ServingMore(
    s: Master, pending: map<nat, int>, s1: Master, now: map<nat, int>, before: set<nat>, later: set<nat>,
    to: seq<nat>, connection: nat, asked: bool, ok: bool, s2: Master)
    requires connection in now && connection in before && later == before - {connection}
    requires (asked <==> now[connection] > 0) && (ok ==> asked)
    requires Serving(s, pending, s1, now, before, to)
    requires OnlyRemote(s1, s2) && Dispatched(s1, s2, Given(connection, ok))
    ensures var now' := if asked then AfterRequest(now, connection, ok, MoreToDo(s2)) else now;
            Serving(s, pending, s2, now', later, to + Given(connection, ok))
  {
    DispatchedMore(s, s1, s2, to, Given(connection, ok));
    assert later + {connection} == before;
    ServedMore(pending, now, later, to, MoreToDo(s2), connection, asked, ok);
  }

  lemma ServedMore(
    pending: map<nat, int>, now: map<nat, int>, later: set<nat>, to: seq<nat>, more: bool,
    connection: nat, asked: bool, ok: bool)
    requires connection in now && connection !in later && (asked <==> now[connection] > 0) && (ok ==> asked)
    requires Served(pending, now, later + {connection}, to, more)
    ensures var now' := if asked then AfterRequest(now, connection, ok, more) else now;
            Served(pending, now', later, to + Given(connection, ok), more)
  {
    var now' := if asked then AfterRequest(now, connection, ok, more) else now;
    forall c | c in pending
      ensures ServedOne(pending[c], now'[c], c in later, Count(to + Given(connection, ok), c), more)
    {
      assert ServedOne(pending[c], now[c], c in later + {connection}, Count(to, c), more);
      CountSnoc(to, connection, c);
      assert to + [] == to;
    }
  }

  /** The edge that a slave was given, if any. */
  function Given(connection: nat, ok: bool): seq<nat> {
    if ok then [connection] else []
  }

  /** A waiting slave's count after RequestEdge: one less, or one more. */
  function AfterRequest(pending: map<nat, int>, connection: nat, ok: bool, more: bool): map<nat, int>
    requires connection in pending
  {
    pending[connection := pending[connection] + if ok then -1 else if more then 1 else 0]
  }

  /** How many edges InitialalBuild may give a slave with so many processors. */
  function Share(processors: int): nat {
    if processors < 0 then 0 else processors + 1
  }

  ghost predicate Only(to: seq<nat>, connection: nat) {
    forall i :: 0 <= i < |to| ==> to[i] == connection
  }

  lemma {:induction false} OnlyCount(to: seq<nat>, connection: nat, c: nat)
    requires Only(to, connection)
    ensures Count(to, c) == if c == connection then |to| else 0
  {
    if to != [] {
      OnlyCount(to[..|to| - 1], connection, c);
    }
  }

  ghost predicate Filling(s: Master, s': Master, to: seq<nat>, connection: nat, n: nat) {
    OnlyRemote(s, s') && Dispatched(s, s', to) && Only(to, connection) && |to| == n
  }

  lemma FillingMore(s: Master, s1: Master, s2: Master, to: seq<nat>, connection: nat, n: nat)
    requires Filling(s, s1, to, connection, n)
    requires OnlyRemote(s1, s2) && Dispatched(s1, s2, [connection])
    ensures Filling(s, s2, to + [connection], connection, n + 1)
  {
    DispatchedMore(s, s1, s2, to, [connection]);
  }

  /** Each slave that is not in later has got its share, or no edge is ready any more. */
  ghost predicate Shared(slaves: map<nat, int>, to: seq<nat>, later: set<nat>, none: bool) {
    && later <= slaves.Keys
    && (forall c :: c in slaves ==> SharedOne(slaves[c], c in later, Count(to, c), none))
    && (forall c :: c in to ==> c in slaves)
  }

  ghost predicate SharedOne(processors: int, later: bool, edges: nat, none: bool) {
    if later then edges == 0 else edges <= Share(processors) && (edges == Share(processors) || none)
  }

  lemma SharedMore(
    slaves: map<nat, int>, to: seq<nat>, more: seq<nat>, later: set<nat>, connection: nat, s: Master, s': Master)
    requires connection in slaves && connection !in later
    requires Shared(slaves, to, later + {connection}, NoneReady(s))
    requires OnlyRemote(s, s') && Only(more, connection) && |more| <= Share(slaves[connection])
    requires |more| < Share(slaves[connection]) ==> NoneReady(s')
    ensures Shared(slaves, to + more, later, NoneReady(s'))
  {
    if NoneReady(s) {
      NoneReadyLater(s, s');
    }
    forall c | c in slaves
      ensures SharedOne(slaves[c], c in later, Count(to + more, c), NoneReady(s'))
    {
      assert SharedOne(slaves[c], c in later + {connection}, Count(to, c), NoneReady(s));
      CountConcat(to, more, c);
      OnlyCount(more, connection, c);
    }
  }

  ghost predicate Sharing(s: Master, s': Master, later: set<nat>, to: seq<nat>) {
    && OnlyRemote(s, s') && Dispatched(s, s', to)
    && Shared(s'.remote.slaves, to, later, NoneReady(s'))
  }

  lemma SharingMore(
    s: Master, s1: Master, s2: Master, before: set<nat>, later: set<nat>, to: seq<nat>,
    connection: nat, more: seq<nat>)
    requires connection in before && connection in s1.remote.slaves && later == before - {connection}
    requires Sharing(s, s1, before, to) && OnlyRemote(s1, s2) && Dispatched(s1, s2, more)
    requires var share := Share(s1.remote.slaves[connection]);
             Only(more, connection) && |more| <= share && (|more| < share ==> NoneReady(s2))
    ensures Sharing(s, s2, later, to + more)
  {
    DispatchedMore(s, s1, s2, to, more);
    assert later + {connection} == before;
    SharedMore(s1.remote.slaves, to, more, later, connection, s1, s2);
  }

  /** The answer leaves its place; the slave that gave it gets at most one edge, if it is known. */
  ghost predicate AnsweredBy(s: Master, s': Master, e: Edge, success: bool, connection: nat) {
    && e !in s'.remote.inFlight && e in s.g.hash
    && (if success then s.g.hash[e] !in s'.remote.outstandingEdges
        else s.g.hash[e] in s'.remote.outstandingEdges && s'.remote.outstandingEdges[s.g.hash[e]] == e)
    && (forall f :: f in s.remote.inFlight && f != e ==>
          f in s'.remote.inFlight && s'.remote.inFlight[f] == s.remote.inFlight[f])
    && s.outstanding <= s'.outstanding && |s'.outstanding| <= |s.outstanding| + 1
    && (|s'.outstanding| > |s.outstanding| && connection in s.remote.slaves ==>
          var f := s'.outstanding[|s.outstanding|];
          f in s'.remote.inFlight && s'.remote.inFlight[f] == connection)
  }

  lemma AnswerIsTaken(s: Master, s1: Master, s2: Master, e: Edge, success: bool, connection: nat, ok: bool)
    requires e in s.remote.inFlight && s.g == s1.g && e in s.g.hash
    requires RepliesFindEdges(s1.g, s1.handedOut, s1.remote)
    requires Dispatched(s, s1, Given(connection, ok))
    requires s2 == Reply(s1, e, success)
    ensures AnsweredBy(s, s2, e, success, connection)
  {
  }

  method AnyOf(connections: set<nat>) returns (connection: nat)
    requires connections != {}
    ensures connection in connections
  {
    connection :| connection in connections;
  }

  class Builder {
    const g: Graph
    const executor: CommandExecutor

    var handedOut: set<Edge>
    var finished: set<Edge>
    var outstandingEdgeList: seq<Edge>
    var commandEdgeMap: map<string, Edge>
    var pendingEdgeRequest: map<nat, int>
    var slaveInfo: map<nat, int>
    var outstandingEdges: map<nat, Edge>

    // What has happened so far and what is going on elsewhere.
    var finishLog: seq<Edge>
    var failed: set<Edge>
    var exitFailed: set<Edge>
    var buildFinished: nat
    var local: map<Edge, nat>
    var exiting: set<nat>
    var inFlight: map<Edge, nat>

    ghost function State(): Master
      reads this, executor
    {
      Master(g, handedOut, finished, finishLog, outstandingEdgeList, failed, exitFailed,
             Crew(executor.State(), commandEdgeMap, local, exiting),
             Remote(slaveInfo, outstandingEdges, inFlight), buildFinished)
    }

    /** hand is the edge a handler is moving. */
    ghost predicate Valid(hand: set<Edge>)
      reads this, executor
    {
      executor.Valid() && Inv(State(), hand)
    }

    constructor (g: Graph, processors: nat)
      requires WellFormed(g)
      ensures Valid({}) && fresh(executor)
      ensures this.g == g && slaveInfo == map[] && executor.subprocessToCommand == map[]
      ensures handedOut == {} && finished == {} && finishLog == [] && outstandingEdgeList == []
      ensures failed == {} && exitFailed == {} && buildFinished == 0
      ensures local == map[] && exiting == {} && inFlight == map[]
    {
      this.g := g;
      executor := new CommandExecutor(GuessParallelism(processors));
      handedOut, finished, outstandingEdgeList, commandEdgeMap := {}, {}, [], map[];
      pendingEdgeRequest, slaveInfo, outstandingEdges := map[], map[], map[];
      finishLog, failed, exitFailed, buildFinished := [], {}, {}, 0;
      local, exiting, inFlight := map[], {}, map[];
      new;
      forall e
        ensures OnePlace(State(), {}, e)
      {
      }
    }

    // ---- The plan ----

    /** Some ready edge, whenever there is one. */
    method FindWork() returns (edge: Option<Edge>)
      requires Valid({})
      modifies this`handedOut
      ensures match edge
              case Some(e) => Valid({e}) && IsReady(old(State()), e) && State() == HandOut(old(State()), e)
              case None => Valid({}) && State() == old(State()) && forall e :: !IsReady(State(), e)
    {
      var ready := set e | e in g.wanted && e !in handedOut && Needs(g, e) <= finished;
      if ready == {} {
        assert forall e :: IsReady(State(), e) ==> e in ready;
        return None;
      }
      var e :| e in ready;
      HandOutKeeps(State(), e);
      handedOut := handedOut + {e};
      return Some(e);
    }

    /** A ready edge or none. */
    method FindRemoteWork() returns (edge: Option<Edge>)
      requires Valid({})
      modifies this`handedOut
      ensures match edge
              case Some(e) => Valid({e}) && IsReady(old(State()), e) && State() == HandOut(old(State()), e)
              case None => Valid({}) && State() == old(State())
    {
      if * {
        return None;
      }
      edge := FindWork();
    }

    method EdgeFinished(e: Edge)
      requires Valid({e})
      modifies this`finished, this`finishLog
      ensures Valid({}) && State() == Finish(old(State()), e)
    {
      FinishKeeps(State(), e);
      finished := finished + {e};
      finishLog := finishLog + [e];
    }

    predicate HasMoreToDo()
      reads this
    {
      finished != g.wanted
    }

    // ---- DNBuilder ----

    /** Creating the directories or the response file may fail, and then the edge is lost. */
    method StartEdgeLocally(e: Edge) returns (ok: bool)
      requires Valid({e}) && executor.CanRun()
      modifies this, executor
      ensures Valid({})
      ensures ok ==> e in g.command
      ensures State() == if !ok then Drop(old(State()), e)
                         else if e in g.phony then Finish(old(State()), e)
                         else RunLocally(old(State()), e)
      ensures !ok ==> e !in g.phony
    {
      assert OnePlace(State(), {e}, e);
      if e in g.phony {
        EdgeFinished(e);
        return true;
      }
      CommandsDiffer(State(), e);
      if * {
        DropKeeps(State(), e);
        failed := failed + {e};
        return false;
      }
      RunEdge(e);
      return true;
    }

    method RunEdge(e: Edge)
      requires Valid({e}) && executor.CanRun() && e !in g.phony && e in g.command
      modifies this`commandEdgeMap, this`local, executor
      ensures Valid({}) && State() == RunLocally(old(State()), e)
    {
      RunLocallyKeeps(State(), e);
      RunEdgeCommand(e);
    }

    method RunEdgeCommand(e: Edge)
      requires executor.Valid() && e in g.command
      modifies this`commandEdgeMap, this`local, executor
      ensures executor.Valid() && State() == RunLocally(old(State()), e)
    {
      var command := g.command[e];
      commandEdgeMap := commandEdgeMap[command := e];
      var ticket := executor.RunCommand(command);
      local := local[e := ticket];
    }

    method BuildFinished()
      requires Valid({})
      modifies this`buildFinished
      ensures Valid({}) && State() == old(State()).(buildFinished := old(buildFinished) + 1)
    {
      buildFinished := buildFinished + 1;
      forall e
        ensures OnePlace(State(), {}, e)
      {
        assert OnePlace(old(State()), {}, e);
      }
    }

    /** The oldest outstanding edge is taken back. */
    method TakeBack() returns (e: Edge)
      requires Valid({}) && outstandingEdgeList != []
      modifies this`outstandingEdgeList
      ensures Valid({e}) && e == old(outstandingEdgeList)[0] && State() == Take(old(State()), 0)
      ensures outstandingEdgeList == old(outstandingEdgeList)[1..]
    {
      e := outstandingEdgeList[0];
      TakeKeeps(State(), 0);
      assert Without(outstandingEdgeList, 0) == outstandingEdgeList[1..];
      outstandingEdgeList := outstandingEdgeList[1..];
    }

    /** The body of BuildLoop's while loop: a ready edge, else the oldest outstanding one. */
    method StartNext() returns (r: Started, ghost e: Edge)
      requires Valid({}) && executor.CanRun()
      modifies this, executor
      ensures Valid({})
      ensures Advances(old(State()), State()) && SameElsewhere(old(State()), State())
      ensures r == Nothing ==> State() == old(State()) && Saturated(State())
      ensures r != Nothing ==> TakesNext(old(State()), State(), e)
      ensures r == Error ==> e in failed
      ensures r == One ==> failed == old(failed) && (if e in g.phony then e in finished else e in local)
      ensures r == One ==> Startable(State()) < Startable(old(State()))
    {
      var next;
      var found := FindWork();
      if found.None? {
        if outstandingEdgeList == [] {
          return Nothing, 0;
        }
        next := TakeBack();
      } else {
        next := found.value;
        HandOutStartable(old(State()), next);
      }
      e := next;
      var ok := StartEdgeLocally(next);
      r := if ok then One else Error;
    }

    method BuildLoop()
      requires Valid({})
      modifies this, executor
      ensures Valid({})
      ensures Advances(old(State()), State()) && LoopDone(old(State()), State())
      ensures exiting == old(exiting) && exitFailed == old(exitFailed) && State().remote == old(State()).remote
    {
      if !HasMoreToDo() {
        BuildFinished();
        return;
      }
      var ok := StartWork();
      if !ok {
        FailedIsUnfinished(State());
        return;
      }
      if !HasMoreToDo() {
        BuildFinished();
        return;
      }
      if failed == {} {
        SaturatedRuns(State());
      }
    }

    /** BuildLoop's while loop, which an error ends. */
    method StartWork() returns (ok: bool)
      requires Valid({})
      modifies this, executor
      ensures Valid({})
      ensures Advances(old(State()), State()) && SameElsewhere(old(State()), State())
      ensures if ok then Saturated(State()) else failed != {}
    {
      while executor.CanRun()
        invariant Valid({}) && Advances(old(State()), State()) && SameElsewhere(old(State()), State())
        decreases Startable(State())
      {
        var r, _ := StartNext();
        if r != One {
          return r == Nothing;
        }
      }
      return true;
    }

    /** True if the remote edge has been taken back. */
    method HasRemoteCommandRunLocally(e: Edge) returns (taken: bool)
      ensures taken <==> e !in outstandingEdgeList
    {
      for i := 0 to |outstandingEdgeList|
        invariant e !in outstandingEdgeList[..i]
      {
        if outstandingEdgeList[i] == e {
          return false;
        }
      }
      return true;
    }

    /** The runner asks the slave to build e if it is known. */
    method StartEdgeRemotelly(e: Edge, connection: nat) returns (sent: bool)
      requires Valid({e})
      modifies this`outstandingEdges, this`inFlight
      ensures Valid({e}) && e in g.hash && State() == SendRemote(old(State()), e, connection)
      ensures sent <==> connection in slaveInfo
      ensures if sent then inFlight == old(inFlight)[e := connection]
                           && outstandingEdges == old(outstandingEdges)[g.hash[e] := e]
              else inFlight == old(inFlight) && outstandingEdges == old(outstandingEdges)
    {
      SendRemoteKeeps(State(), e, connection);
      if connection !in slaveInfo {
        return false;
      }
      outstandingEdges := outstandingEdges[g.hash[e] := e];
      inFlight := inFlight[e := connection];
      return true;
    }

    /** The handed-out edge goes to the slave if it is known, and on the list in any case. */
    method StartRemotely(e: Edge, connection: nat)
      requires Valid({e}) && e !in inFlight
      modifies this`outstandingEdges, this`inFlight, this`outstandingEdgeList
      ensures Valid({}) && OnlyRemote(old(State()), State()) && Dispatched(old(State()), State(), [connection])
      ensures e in g.hash && handedOut == old(handedOut)
      ensures outstandingEdgeList == old(outstandingEdgeList) + [e]
      ensures if connection in slaveInfo
              then inFlight == old(inFlight)[e := connection]
                   && outstandingEdges == old(outstandingEdges)[g.hash[e] := e]
              else inFlight == old(inFlight) && outstandingEdges == old(outstandingEdges)
    {
      ghost var s := State();
      var _ := StartEdgeRemotelly(e, connection);
      SentIsDispatched(s, e, connection);
      PushKeeps(State(), e);
      outstandingEdgeList := outstandingEdgeList + [e];
    }

    /** One more edge for the slave, or a note that it waits for one. */
    method RequestEdge(connection: nat) returns (ok: bool)
      requires Valid({})
      modifies this`handedOut, this`outstandingEdges, this`inFlight, this`outstandingEdgeList, this`pendingEdgeRequest
      ensures Valid({}) && OnlyRemote(old(State()), State())
      ensures Dispatched(old(State()), State(), Given(connection, ok))
      ensures !ok ==> State() == old(State())
      ensures pendingEdgeRequest ==
                if ok || !HasMoreToDo() then old(pendingEdgeRequest) else OneMore(old(pendingEdgeRequest), connection)
    {
      if !HasMoreToDo() {
        return false;
      }
      var found := FindRemoteWork();
      if found.None? {
        var waiting := if connection in pendingEdgeRequest then pendingEdgeRequest[connection] + 1 else 1;
        pendingEdgeRequest := pendingEdgeRequest[connection := waiting];
        return false;
      }
      ReadyIsFresh(old(State()), found.value);
      StartRemotely(found.value, connection);
      return true;
    }

    /**
     The loop over pending_edge_request_ in OnCommandFinished: who waits is asked
     for once.  The count of a slave that gets nothing grows.
     */
    method ServePendingRequests() returns (ghost to: seq<nat>)
      requires Valid({})
      modifies this`handedOut, this`outstandingEdges, this`inFlight, this`outstandingEdgeList, this`pendingEdgeRequest
      ensures Valid({}) && OnlyRemote(old(State()), State()) && Dispatched(old(State()), State(), to)
      ensures Served(old(pendingEdgeRequest), pendingEdgeRequest, {}, to, HasMoreToDo())
    {
      var connections := pendingEdgeRequest.Keys;
      to := [];
      while connections != {}
        invariant Valid({})
        invariant Serving(old(State()), old(pendingEdgeRequest), State(), pendingEdgeRequest, connections, to)
        decreases connections
      {
        ghost var s, pending, before := State(), pendingEdgeRequest, connections;
        var connection := AnyOf(connections);
        connections := connections - {connection};
        var asked, ok := pendingEdgeRequest[connection] > 0, false;
        if asked {
          ok := ServeRequest(connection);
        }
        ServingMore(old(State()), old(pendingEdgeRequest), s, pending, before, connections, to,
                    connection, asked, ok, State());
        to := to + Given(connection, ok);
      }
    }

    method ServeRequest(connection: nat) returns (ok: bool)
      requires Valid({}) && connection in pendingEdgeRequest
      modifies this`handedOut, this`outstandingEdges, this`inFlight, this`outstandingEdgeList, this`pendingEdgeRequest
      ensures Valid({}) && OnlyRemote(old(State()), State())
      ensures Dispatched(old(State()), State(), Given(connection, ok))
      ensures pendingEdgeRequest == AfterRequest(old(pendingEdgeRequest), connection, ok, HasMoreToDo())
    {
      ok := RequestEdge(connection);
      if ok {
        pendingEdgeRequest := pendingEdgeRequest[connection := pendingEdgeRequest[connection] - 1];
      }
    }

    /** FinishCommand's search of the list: the edge leaves it if it is there. */
    method EraseOutstanding(e: Edge, ghost ranHere: bool)
      requires Valid(if ranHere then {e} else {})
      requires ranHere <==> e !in outstandingEdgeList
      modifies this`outstandingEdgeList
      ensures Valid({e})
      ensures if ranHere then State() == old(State())
              else exists i :: 0 <= i < |old(outstandingEdgeList)| && old(outstandingEdgeList)[i] == e
                               && State() == Take(old(State()), i)
    {
      var i := 0;
      while i < |outstandingEdgeList|
        invariant 0 <= i <= |outstandingEdgeList|
        invariant State() == old(State()) && e !in outstandingEdgeList[..i]
      {
        if outstandingEdgeList[i] == e {
          TakeKeeps(State(), i);
          outstandingEdgeList := outstandingEdgeList[..i] + outstandingEdgeList[i + 1..];
          return;
        }
        i := i + 1;
      }
    }

    /**
     FinishCommand for an edge that is in hand because it ran here, or that is
     on the list because it ran remotely.  An edge whose command or whose
     dependency file fails is dropped.
     */
    method FinishCommand(e: Edge, success: bool, depsOk: bool, ghost ranHere: bool)
      requires Valid(if ranHere then {e} else {})
      requires !ranHere ==> success && e in outstandingEdgeList
      modifies this`outstandingEdgeList, this`finished, this`finishLog
      modifies this`failed, this`exitFailed, this`buildFinished
      ensures Valid({}) && Advances(old(State()), State())
      ensures State().crew == old(State()).crew && State().remote == old(State()).remote
      ensures if success && depsOk then finishLog == old(finishLog) + [e] && failed == old(failed)
              else finishLog == old(finishLog) && failed == old(failed) + {e}
      ensures buildFinished == old(buildFinished) + if success then 0 else 1
      ensures exitFailed == if success then old(exitFailed) else old(exitFailed) + {e}
    {
      ghost var s := State();
      if !success {
        DropKeeps(s, e);
        failed := failed + {e};
        ReportFailure(e);
        return;
      }
      InHandIsNotListed(s, e, ranHere);
      EraseOutstanding(e, ranHere);
      if !depsOk {
        DropKeeps(State(), e);
        failed := failed + {e};
        return;
      }
      EdgeFinished(e);
    }

    method ReportFailure(e: Edge)
      requires Valid({}) && e in failed
      modifies this`exitFailed, this`buildFinished
      ensures Valid({}) && State() == Report(old(State()), e)
      ensures buildFinished == old(buildFinished) + 1 && exitFailed == old(exitFailed) + {e}
    {
      ReportKeeps(State(), e);
      BuildFinished();
      exitFailed := exitFailed + {e};
    }

    // ---- Main-thread tasks ----

    /** The observer: the finished edge, the waiting slaves, and then more local work. */
    method OnCommandFinished(e: Edge, success: bool, depsOk: bool)
      requires Valid({e})
      modifies this, executor
      ensures Valid({}) && Advances(old(State()), State()) && exiting == old(exiting)
      ensures if success && depsOk then e in finished else e in failed
      ensures exitFailed == if success then old(exitFailed) else old(exitFailed) + {e}
      ensures buildFinished == old(buildFinished) + (if success then 0 else 1) + (if HasMoreToDo() then 0 else 1)
      ensures failed == {} && HasMoreToDo() ==> local != map[]
    {
      FinishCommand(e, success, depsOk, true);
      ghost var s := State();
      ghost var to := ServePendingRequests();
      BuildLoop();
      assert e in s.finishLog ==> e in finishLog;
    }

    /** SubprocessExitCallback with the builder as the executor's observer. */
    method OnLocalExit(ticket: nat, success: bool, depsOk: bool) returns (e: Edge)
      requires Valid({}) && Settled(State()) && ticket in executor.subprocessToCommand
      modifies this, executor
      ensures Valid({}) && Settled(State()) && Advances(old(State()), State())
      ensures e in old(local) && old(local)[e] == ticket && (if success && depsOk then e in finished else e in failed)
      ensures exitFailed == if success then old(exitFailed) else old(exitFailed) + {e}
      ensures !success ==> buildFinished == old(buildFinished) + 1
    {
      e := TakeExited(ticket);
      ghost var s := State();
      OnCommandFinished(e, success, depsOk);
      EndLocalExit(ticket);
      ExitSettles(s, State(), e, success);
    }

    /** The subprocess of a running edge exits with success. */
    method ExitOf(e: Edge)
      requires Valid({}) && Settled(State()) && e in local
      modifies this, executor
      ensures Valid({}) && Settled(State()) && |Open(State())| < |Open(old(State()))|
      ensures exitFailed == old(exitFailed)
    {
      ghost var s := State();
      LocalIsProcess(s, e);
      var f := OnLocalExit(local[e], true, true);
      OpenShrinks(s, State(), f);
    }

    method ExitAny()
      requires Valid({}) && Settled(State()) && local != map[]
      modifies this, executor
      ensures Valid({}) && Settled(State()) && |Open(State())| < |Open(old(State()))|
      ensures exitFailed == old(exitFailed)
    {
      var e :| e in local;
      ExitOf(e);
    }

    /** The exited subprocess leads to its edge by its command. */
    method TakeExited(ticket: nat) returns (e: Edge)
      requires Valid({}) && exiting == {} && ticket in executor.subprocessToCommand
      modifies this`local, this`exiting
      ensures e in old(local) && old(local)[e] == ticket && exiting == {ticket}
      ensures Valid({e}) && State() == BeginExit(old(State()), e) && MoreToDo(old(State()))
      ensures local == old(local) - {e}
    {
      e := commandEdgeMap[executor.subprocessToCommand[ticket]];
      RunningIsUnfinished(State());
      BeginExitKeeps(State(), e);
      local, exiting := local - {e}, {ticket};
    }

    /** The rest of SubprocessExitCallback. */
    method EndLocalExit(ticket: nat)
      requires Valid({}) && exiting == {ticket}
      modifies this`exiting, executor
      ensures Valid({}) && State() == EndExit(old(State()), ticket)
    {
      EndExitKeeps(State(), ticket);
      executor.CleanUp(ticket);
      exiting := {};
    }

    /**
     OnRemoteCommandDone for the slave's answer about edge e.  The slave gets
     another edge at once; a failed command is left for the list to retry here.
     The look-up of a slave that has closed meanwhile puts an empty entry back.
     */
    method OnRemoteCommandDone(e: Edge, success: bool) returns (fetch: bool)
      requires Valid({}) && Settled(State()) && e in inFlight
      modifies this`handedOut, this`outstandingEdges, this`inFlight, this`outstandingEdgeList, this`pendingEdgeRequest
      modifies this`slaveInfo
      ensures Valid({}) && Settled(State()) && Advances(old(State()), State())
      ensures finishLog == old(finishLog) && State().crew == old(State()).crew && failed == old(failed)
      ensures fetch == success
      ensures slaveInfo == if success && old(inFlight)[e] !in old(slaveInfo) then old(slaveInfo)[old(inFlight)[e] := 0]
                           else old(slaveInfo)
      ensures AnsweredBy(old(State()), State(), e, success, old(inFlight)[e])
    {
      ghost var s := State();
      var connection := inFlight[e];
      var ok := RequestEdge(connection);
      ghost var s1 := State();
      TakeReply(e, success);
      AnswerIsTaken(s, s1, State(), e, success, connection, ok);
      if !success {
        return false;
      }
      if connection !in slaveInfo {
        AddSlave(connection, 0);
      }
      return true;
    }

    /** The reply about e is no longer on its way; a successful one finds its entry and erases it. */
    method TakeReply(e: Edge, success: bool)
      requires Valid({}) && e in inFlight
      modifies this`outstandingEdges, this`inFlight
      ensures Valid({}) && e in g.hash && State() == Reply(old(State()), e, success)
      ensures inFlight == old(inFlight) - {e}
      ensures g.hash[e] in old(outstandingEdges) && old(outstandingEdges)[g.hash[e]] == e
      ensures outstandingEdges == if success then old(outstandingEdges) - {g.hash[e]} else old(outstandingEdges)
    {
      ReplyKeeps(State(), e, success);
      inFlight := inFlight - {e};
      if success {
        outstandingEdges := outstandingEdges - {g.hash[e]};
      }
    }

    /**
     OnFetchTargetsDone: the edge is finished unless it has been taken back.
     There is no check for the end of the build, and none is needed.
     */
    method OnFetchTargetsDone(e: Edge, depsOk: bool)
      requires Valid({}) && Settled(State())
      modifies this`outstandingEdgeList, this`finished, this`finishLog
      modifies this`failed, this`exitFailed, this`buildFinished
      ensures Valid({}) && Settled(State()) && Advances(old(State()), State())
      ensures State().crew == old(State()).crew && exitFailed == old(exitFailed)
      ensures e !in old(outstandingEdgeList) ==> State() == old(State())
      ensures e in old(outstandingEdgeList) ==>
                if depsOk then finishLog == old(finishLog) + [e] && failed == old(failed)
                else finishLog == old(finishLog) && failed == old(failed) + {e}
    {
      var taken := HasRemoteCommandRunLocally(e);
      if !taken {
        ghost var s := State();
        HeldIsUnfinished(s, e);
        FinishCommand(e, true, depsOk, false);
        if local != map[] {
          RunningIsUnfinished(State());
        } else {
          FailedIsUnfinished(State());
        }
      }
    }

    method OnSlaveClose(connection: nat)
      requires Valid({})
      modifies this`slaveInfo
      ensures Valid({}) && State() == WithSlaves(old(State()), old(slaveInfo) - {connection})
      ensures slaveInfo == old(slaveInfo) - {connection}
    {
      SlavesChange(State(), slaveInfo - {connection});
      slaveInfo := slaveInfo - {connection};
    }

    method AddSlave(connection: nat, processors: int)
      requires Valid({})
      modifies this`slaveInfo
      ensures Valid({}) && State() == WithSlaves(old(State()), old(slaveInfo)[connection := processors])
      ensures slaveInfo == old(slaveInfo)[connection := processors]
    {
      SlavesChange(State(), slaveInfo[connection := processors]);
      slaveInfo := slaveInfo[connection := processors];
    }

    // ---- Starting the build ----

    /** The first loop of InitialalBuild: ready edges, as long as the executor takes them. */
    method StartReadyEdges()
      requires Valid({}) && outstandingEdgeList == []
      modifies this, executor
      ensures Valid({}) && Advances(old(State()), State()) && SameElsewhere(old(State()), State())
      ensures outstandingEdgeList == []
      ensures failed == {} ==> Saturated(State())
    {
      while executor.CanRun()
        invariant Valid({}) && Advances(old(State()), State()) && SameElsewhere(old(State()), State())
        invariant outstandingEdgeList == []
        decreases Startable(State())
      {
        ghost var s := State();
        var found := FindWork();
        if found.None? {
          return;
        }
        HandOutStartable(s, found.value);
        var ok := StartEdgeLocally(found.value);
        if !ok {
          return;
        }
      }
    }

    /** One slave's share: processors + 1 ready edges, fewer only if there are no more. */
    method FillSlave(connection: nat, processors: int) returns (ghost to: seq<nat>)
      requires Valid({})
      modifies this`handedOut, this`outstandingEdges, this`inFlight, this`outstandingEdgeList
      ensures Valid({}) && OnlyRemote(old(State()), State()) && Dispatched(old(State()), State(), to)
      ensures Only(to, connection) && |to| <= Share(processors)
      ensures |to| < Share(processors) ==> NoneReady(State())
    {
      var edgeCounter, more := 0, true;
      to := [];
      while edgeCounter <= processors && more
        invariant Valid({}) && 0 <= edgeCounter <= Share(processors)
        invariant Filling(old(State()), State(), to, connection, edgeCounter)
        invariant more || NoneReady(State())
        decreases processors - edgeCounter, more
      {
        ghost var s := State();
        more := GiveOne(connection);
        if more {
          FillingMore(old(State()), s, State(), to, connection, edgeCounter);
          to := to + [connection];
          edgeCounter := edgeCounter + 1;
        }
      }
    }

    /** A ready edge for the slave, if there is one. */
    method GiveOne(connection: nat) returns (given: bool)
      requires Valid({})
      modifies this`handedOut, this`outstandingEdges, this`inFlight, this`outstandingEdgeList
      ensures Valid({})
      ensures given ==> OnlyRemote(old(State()), State()) && Dispatched(old(State()), State(), [connection])
      ensures !given ==> State() == old(State()) && NoneReady(State())
    {
      var found := FindWork();
      if found.None? {
        return false;
      }
      ReadyIsFresh(old(State()), found.value);
      StartRemotely(found.value, connection);
      return true;
    }

    /** The second loop of InitialalBuild: each slave gets its share as long as edges are ready. */
    method FillSlaves() returns (ghost to: seq<nat>)
      requires Valid({})
      modifies this`handedOut, this`outstandingEdges, this`inFlight, this`outstandingEdgeList
      ensures Valid({}) && OnlyRemote(old(State()), State())
      ensures Dispatched(old(State()), State(), to) && Shared(slaveInfo, to, {}, NoneReady(State()))
    {
      to := [];
      var slaves := slaveInfo.Keys;
      while slaves != {}
        invariant Valid({}) && Sharing(old(State()), State(), slaves, to)
        decreases slaves
      {
        ghost var s, before := State(), slaves;
        var connection := AnyOf(slaves);
        slaves := slaves - {connection};
        ghost var more := FillSlave(connection, slaveInfo[connection]);
        SharingMore(old(State()), s, State(), before, slaves, to, connection, more);
        to := to + more;
      }
    }

    /** What can run here is started first; the slaves get what is ready then. */
    method InitialalBuild() returns (ghost to: seq<nat>)
      requires Valid({}) && HasMoreToDo()
      requires outstandingEdgeList == [] && exiting == {} && buildFinished == 0 && exitFailed == {}
      modifies this, executor
      ensures Valid({}) && Settled(State()) && Advances(old(State()), State())
      ensures slaveInfo == old(slaveInfo) && exitFailed == {}
      ensures Dispatched(old(State()), State(), to) && Shared(slaveInfo, to, {}, NoneReady(State()))
    {
      StartReadyEdges();
      NothingRunsAtTheEnd(State());
      if !HasMoreToDo() {
        BuildFinished();
        NoneReadyAtTheEnd(State());
        return [];
      }
      if failed == {} {
        SaturatedRuns(State());
      }
      to := FillSlaves();
    }
  }

  // ---- MasterMainRunner ----

  /** Nothing has been handed out yet. */
  ghost predicate Idle(s: Master) {
    && s.handedOut == {} && s.finished == {} && s.finishLog == [] && s.outstanding == []
    && s.failed == {} && s.exitFailed == {}
    && s.crew.exec.processes == map[] && s.crew.local == map[] && s.crew.exiting == {}
    && s.remote.inFlight == map[] && s.buildFinished == 0
  }

  class Runner {
    const builder: Builder
    const maxSlaveAmount: nat
    var isBuilding: bool

    constructor (g: Graph, processors: nat, maxSlaveAmount: nat)
      requires WellFormed(g) && g.wanted != {}
      ensures Steady() && !isBuilding && builder.g == g && fresh(builder) && fresh(builder.executor)
    {
      builder := new Builder(g, processors);
      this.maxSlaveAmount := maxSlaveAmount;
      isBuilding := false;
    }

    /** Between two main-thread tasks. */
    ghost predicate Steady()
      reads this, builder, builder.executor
    {
      && builder.Valid({}) && builder.g.wanted != {}
      && if isBuilding then Settled(builder.State()) else Idle(builder.State())
    }

    ghost predicate Building()
      reads this, builder, builder.executor
    {
      isBuilding && builder.Valid({}) && builder.g.wanted != {} && Settled(builder.State())
    }

    /** The slaves that are known by then get their shares. */
    method StartBuild() returns (ghost to: seq<nat>)
      requires Steady()
      modifies this, builder, builder.executor
      ensures Steady() && isBuilding && Advances(old(builder.State()), builder.State())
      ensures old(isBuilding) ==> builder.State() == old(builder.State())
      ensures builder.slaveInfo == old(builder.slaveInfo) && builder.exitFailed == old(builder.exitFailed)
      ensures Dispatched(old(builder.State()), builder.State(), to)
      ensures !old(isBuilding) ==> Shared(builder.slaveInfo, to, {}, NoneReady(builder.State()))
    {
      if isBuilding {
        return [];
      }
      isBuilding := true;
      to := builder.InitialalBuild();
    }

    /** A new slave of the master's own system is taken in; the last one awaited starts the build. */
    method OnSlaveSystemInfoAvailable(connection: nat, processors: int, sameSystem: bool) returns (rejected: bool)
      requires Steady()
      modifies this, builder, builder.executor
      ensures Steady() && Advances(old(builder.State()), builder.State())
      ensures rejected <==> connection !in old(builder.slaveInfo) && !sameSystem
      ensures builder.exitFailed == old(builder.exitFailed)
      ensures var taken := connection !in old(builder.slaveInfo) && sameSystem;
              && builder.slaveInfo == (if taken then old(builder.slaveInfo)[connection := processors]
                                       else old(builder.slaveInfo))
              && isBuilding == (old(isBuilding) || (taken && |builder.slaveInfo| >= maxSlaveAmount))
    {
      if connection in builder.slaveInfo {
        return false;
      }
      if !sameSystem {
        return true;
      }
      builder.AddSlave(connection, processors);
      if |builder.slaveInfo| >= maxSlaveAmount {
        ghost var to := StartBuild();
      }
      return false;
    }
  }

  // ---- Runs ----

  /** What makes the main thread run a task.  An event that cannot occur is skipped. */
  datatype Event =
    | SubprocessExits(ticket: nat, success: bool, depsOk: bool)
    | SlaveAnswers(edge: Edge, success: bool)
    | DownloadDone(edge: Edge, depsOk: bool)
    | DownloadFails(edge: Edge)
    | SlaveCloses(connection: nat)
    | SlaveReports(connection: nat, processors: int, sameSystem: bool)
    | StartRequested

  /** What is kept elsewhere: the edges whose outputs are being downloaded, and those whose command has failed here. */
  datatype World = World(fetching: set<Edge>, failures: set<Edge>)

  ghost predicate Matches(r: Runner, w: World)
    reads r, r.builder
  {
    (!r.isBuilding ==> w.fetching == {}) && w.failures == r.builder.exitFailed
  }

  /** What an event that can occur does to its edge or slave. */
  ghost predicate Effect(s: Master, w: World, event: Event, s': Master, w': World) {
    match event
    case SubprocessExits(ticket, success, depsOk) =>
      ticket in s.crew.exec.processes ==> exists e :: ExitEffect(s, w, e, ticket, success, depsOk, s', w')
    case SlaveAnswers(edge, success) =>
      edge in s.remote.inFlight ==>
        && w' == (if success then w.(fetching := w.fetching + {edge}) else w)
        && AnsweredBy(s, s', edge, success, s.remote.inFlight[edge])
        && s'.finishLog == s.finishLog && s'.failed == s.failed && s'.crew == s.crew
    case DownloadDone(edge, depsOk) =>
      edge in w.fetching ==>
        && w' == w.(fetching := w.fetching - {edge})
        && if edge in s.outstanding
           then if depsOk then s'.finishLog == s.finishLog + [edge] && s'.failed == s.failed
                else s'.finishLog == s.finishLog && s'.failed == s.failed + {edge}
           else s' == s
    case DownloadFails(edge) => w' == w.(fetching := w.fetching - {edge}) && s' == s
    case SlaveCloses(connection) => w' == w && s' == WithSlaves(s, s.remote.slaves - {connection})
    case SlaveReports(connection, processors, sameSystem) =>
      w' == w && s'.remote.slaves == if connection !in s.remote.slaves && sameSystem
                                     then s.remote.slaves[connection := processors] else s.remote.slaves
    case StartRequested => w' == w
  }

  ghost predicate ExitEffect(
    s: Master, w: World, e: Edge, ticket: nat, success: bool, depsOk: bool, s': Master, w': World)
  {
    && e in s.crew.local && s.crew.local[e] == ticket
    && (if success && depsOk then e in s'.finished else e in s'.failed)
    && w' == (if success then w else w.(failures := w.failures + {e}))
    && (!success ==> s'.buildFinished == s.buildFinished + 1)
  }

  method Perform(r: Runner, w: World, event: Event) returns (w': World)
    requires r.Steady() && Matches(r, w)
    modifies r, r.builder, r.builder.executor
    ensures r.Steady() && Matches(r, w')
    ensures Advances(old(r.builder.State()), r.builder.State())
    ensures Effect(old(r.builder.State()), w, event, r.builder.State(), w')
    ensures old(r.isBuilding) || event == StartRequested ==> r.isBuilding
  {
    match event {
      case SubprocessExits(_, _, _) => w' := TakeExit(r, w, event);
      case SlaveAnswers(_, _) => w' := TakeAnswer(r, w, event);
      case DownloadDone(_, _) => w' := TakeDownload(r, w, event);
      case DownloadFails(edge) => w' := w.(fetching := w.fetching - {edge});
      case SlaveCloses(_) => w' := CloseSlave(r, w, event);
      case SlaveReports(_, _, _) => w' := TakeReport(r, w, event);
      case StartRequested =>
        ghost var to := r.StartBuild();
        w' := w;
    }
  }

  /** A subprocess exits, with its observers' work. */
  method TakeExit(r: Runner, w: World, event: Event) returns (w': World)
    requires r.Steady() && Matches(r, w) && event.SubprocessExits?
    modifies r.builder, r.builder.executor
    ensures r.Steady() && Matches(r, w') && Advances(old(r.builder.State()), r.builder.State())
    ensures Effect(old(r.builder.State()), w, event, r.builder.State(), w')
  {
    w' := w;
    var ticket := event.ticket;
    if ticket in r.builder.executor.subprocessToCommand {
      ghost var s := r.builder.State();
      var e := r.builder.OnLocalExit(ticket, event.success, event.depsOk);
      w' := if event.success then w else w.(failures := w.failures + {e});
      assert ExitEffect(s, w, e, ticket, event.success, event.depsOk, r.builder.State(), w');
    }
  }

  /** A slave's answer; the outputs of a successful command are fetched. */
  method TakeAnswer(r: Runner, w: World, event: Event) returns (w': World)
    requires r.Steady() && Matches(r, w) && event.SlaveAnswers?
    modifies r.builder
    ensures r.Steady() && Matches(r, w') && Advances(old(r.builder.State()), r.builder.State())
    ensures Effect(old(r.builder.State()), w, event, r.builder.State(), w')
  {
    w' := w;
    if event.edge in r.builder.inFlight {
      var fetch := r.builder.OnRemoteCommandDone(event.edge, event.success);
      w' := if fetch then w.(fetching := w.fetching + {event.edge}) else w;
    }
  }

  /** The outputs of an edge have been downloaded. */
  method TakeDownload(r: Runner, w: World, event: Event) returns (w': World)
    requires r.Steady() && Matches(r, w) && event.DownloadDone?
    modifies r.builder
    ensures r.Steady() && Matches(r, w') && Advances(old(r.builder.State()), r.builder.State())
    ensures Effect(old(r.builder.State()), w, event, r.builder.State(), w')
  {
    w' := w;
    if event.edge in w.fetching {
      r.builder.OnFetchTargetsDone(event.edge, event.depsOk);
      w' := w.(fetching := w.fetching - {event.edge});
    }
  }

  method CloseSlave(r: Runner, w: World, event: Event) returns (w': World)
    requires r.Steady() && Matches(r, w) && event.SlaveCloses?
    modifies r.builder
    ensures r.Steady() && Matches(r, w') && Advances(old(r.builder.State()), r.builder.State())
    ensures Effect(old(r.builder.State()), w, event, r.builder.State(), w')
  {
    r.builder.OnSlaveClose(event.connection);
    w' := w;
  }

  method TakeReport(r: Runner, w: World, event: Event) returns (w': World)
    requires r.Steady() && Matches(r, w) && event.SlaveReports?
    modifies r, r.builder, r.builder.executor
    ensures r.Steady() && Matches(r, w') && Advances(old(r.builder.State()), r.builder.State())
    ensures Effect(old(r.builder.State()), w, event, r.builder.State(), w')
    ensures old(r.isBuilding) ==> r.isBuilding
  {
    var _ := r.OnSlaveSystemInfoAvailable(event.connection, event.processors, event.sameSystem);
    w' := w;
  }

  /** Any number of tasks one after another. */
  method PerformAll(r: Runner, w: World, events: seq<Event>) returns (w': World)
    requires r.Steady() && Matches(r, w)
    modifies r, r.builder, r.builder.executor
    ensures r.Steady() && Matches(r, w')
    ensures Advances(old(r.builder.State()), r.builder.State())
    ensures old(r.isBuilding) ==> r.isBuilding
  {
    w' := w;
    for i := 0 to |events|
      invariant r.Steady() && Matches(r, w')
      invariant Advances(old(r.builder.State()), r.builder.State())
      invariant old(r.isBuilding) ==> r.isBuilding
    {
      w' := Perform(r, w', events[i]);
    }
  }

  /** Where the edges are at the end of a run, which commands have failed, and how often BuildFinished was called. */
  datatype Outcome = Outcome(
    started: bool, log: seq<Edge>, running: set<Edge>, outstanding: seq<Edge>, failed: set<Edge>,
    failures: set<Edge>, handedOut: set<Edge>, calls: nat)

  /** The guarantees of a run that may stop after any event. */
  ghost predicate Safe(g: Graph, o: Outcome) {
    && InOrder(g, o.log)
    && (forall e :: PlacesOf(o, e) == if e in o.handedOut then 1 else 0)
    && (forall e, f :: e in o.handedOut && f in Needs(g, e) ==> f in o.log)
    && o.handedOut <= g.wanted
    && (!o.started ==> o.handedOut == {} && o.calls == 0)
    && o.failures <= o.failed
    && (o.started ==> o.calls == |o.failures| + if Complete(g, o.log) then 1 else 0)
    && (o.started && o.failed == {} ==> (o.running == {} <==> Complete(g, o.log)))
  }

  ghost predicate Complete(g: Graph, log: seq<Edge>) {
    forall e :: e in g.wanted ==> e in log
  }

  function PlacesOf(o: Outcome, e: Edge): nat {
    (if e in o.log then 1 else 0) + (if e in o.running then 1 else 0)
    + Count(o.outstanding, e) + (if e in o.failed then 1 else 0)
  }

  ghost function OutcomeOf(s: Master, started: bool): Outcome {
    Outcome(started, s.finishLog, s.crew.local.Keys, s.outstanding, s.failed, s.exitFailed, s.handedOut,
            s.buildFinished)
  }

  lemma PlacesAgree(s: Master, started: bool, e: Edge)
    requires Inv(s, {})
    ensures PlacesOf(OutcomeOf(s, started), e) == if e in s.handedOut then 1 else 0
  {
    assert OnePlace(s, {}, e);
  }

  lemma CompleteMeansDone(s: Master)
    requires Inv(s, {})
    ensures Complete(s.g, s.finishLog) <==> !MoreToDo(s)
  {
    if MoreToDo(s) {
      FinishedWanted(s);
      var e :| e in s.g.wanted && e !in s.finished;
      assert e !in s.finishLog;
    }
  }

  lemma SettledIsSafe(s: Master, started: bool)
    requires Inv(s, {}) && (if started then Settled(s) else Idle(s))
    ensures Safe(s.g, OutcomeOf(s, started))
  {
    var o := OutcomeOf(s, started);
    forall e
      ensures PlacesOf(o, e) == if e in o.handedOut then 1 else 0
    {
      PlacesAgree(s, started, e);
    }
    assert o.running == {} <==> s.crew.local == map[];
    CompleteMeansDone(s);
  }

  method Observe(r: Runner, w: World) returns (o: Outcome)
    requires r.Steady() && Matches(r, w)
    ensures Safe(r.builder.g, o) && o.started == r.isBuilding
    ensures o.running == r.builder.local.Keys && o.failed == r.builder.failed && o.failures == w.failures
  {
    var b := r.builder;
    o := Outcome(r.isBuilding, b.finishLog, b.local.Keys, b.outstandingEdgeList, b.failed, w.failures, b.handedOut,
                 b.buildFinished);
    SettledIsSafe(b.State(), r.isBuilding);
  }

  /** Every run: any plan, any number of slaves awaited, any sequence of events. */
  method RunBuild(g: Graph, processors: nat, maxSlaveAmount: nat, events: seq<Event>) returns (o: Outcome)
    requires WellFormed(g) && g.wanted != {}
    ensures Safe(g, o)
  {
    var r := new Runner(g, processors, maxSlaveAmount);
    var w := PerformAll(r, World({}, {}), events);
    o := Observe(r, w);
  }

  /** The edges that have neither been finished nor dropped. */
  ghost function Open(s: Master): set<Edge> {
    s.g.wanted - s.finished - s.failed
  }

  lemma LocalIsProcess(s: Master, e: Edge)
    requires Inv(s, {}) && e in s.crew.local
    ensures s.crew.local[e] in s.crew.exec.processes
  {
  }

  lemma OpenShrinks(s: Master, s': Master, e: Edge)
    requires Advances(s, s') && Inv(s, {}) && e in s.crew.local
    requires e in s'.finished || e in s'.failed
    ensures |Open(s')| < |Open(s)|
  {
    assert OnePlace(s, {}, e);
    OpenNarrows(s, s');
    assert e in Open(s) && e !in Open(s');
    SubsetSize(Open(s'), Open(s) - {e});
  }

  lemma OpenNarrows(s: Master, s': Master)
    requires Advances(s, s')
    ensures Open(s') <= Open(s) && |Open(s')| <= |Open(s)|
  {
    SubsetSize(Open(s'), Open(s));
  }

  /**
   Every build that is started ends: whatever happens before and between (noise),
   the exits of running subprocesses alone lead to the end of the build, and then,
   if there was no error, every wanted edge is finished and BuildFinished was called once.
   */
  method RunToTheEnd(g: Graph, processors: nat, maxSlaveAmount: nat, before: seq<Event>, noise: seq<seq<Event>>)
    returns (o: Outcome)
    requires WellFormed(g) && g.wanted != {}
    ensures Safe(g, o) && o.started && o.running == {}
    ensures o.failed == {} ==> o.calls == 1 && Complete(g, o.log)
  {
    var r := new Runner(g, processors, maxSlaveAmount);
    var w := PerformAll(r, World({}, {}), before);
    ghost var to := r.StartBuild();
    var round := 0;
    while r.builder.local != map[]
      invariant fresh(r) && fresh(r.builder) && fresh(r.builder.executor) && r.builder.g == g
      invariant r.Building() && Matches(r, w)
      decreases |Open(r.builder.State())|, r.builder.local != map[]
    {
      var events := if round < |noise| then noise[round] else [];
      w := ExitAfterNoise(r, w, events);
      round := round + 1;
    }
    o := Observe(r, w);
  }

  /** Some events, and then the exit of a subprocess if one is still running. */
  method ExitAfterNoise(r: Runner, w: World, events: seq<Event>) returns (w': World)
    requires r.Building() && Matches(r, w) && r.builder.local != map[]
    modifies r, r.builder, r.builder.executor
    ensures r.Building() && Matches(r, w')
    ensures |Open(r.builder.State())| <= |Open(old(r.builder.State()))|
    ensures r.builder.local == map[] || |Open(r.builder.State())| < |Open(old(r.builder.State()))|
  {
    w' := PerformAll(r, w, events);
    OpenNarrows(old(r.builder.State()), r.builder.State());
    if r.builder.local != map[] {
      ExitOne(r, w');
    }
  }

  /** The exit of a subprocess that is running brings the end of the build nearer. */
  method ExitOne(r: Runner, w: World)
    requires r.Building() && Matches(r, w) && r.builder.local != map[]
    modifies r.builder, r.builder.executor
    ensures r.Building() && Matches(r, w) && |Open(r.builder.State())| < |Open(old(r.builder.State()))|
  {
    r.builder.ExitAny();
  }

  /** The loop of FetchTargetsOnBlockingPool; the command ran; targets pairs a path with its digest. */
  method FetchTargets(ran: bool, targets: seq<(string, string)>, digests: seq<string>) returns (success: bool)
    requires |digests| == |targets|
    ensures success <==> ran && targets != [] && forall i :: 0 <= i < |targets| ==> digests[i] == targets[i].1
  {
    success := false;
    if !ran {
      return;
    }
    for i := 0 to |targets|
      invariant success <==> i > 0
      invariant forall j :: 0 <= j < i ==> digests[j] == targets[j].1
    {
      success := digests[i] == targets[i].1;
      if !success {
        break;
      }
    }
  }

  function WithSlaves(s: Master, slaves: map<nat, int>): Master {
    s.(remote := s.remote.(slaves := slaves))
  }

  lemma SlavesChange(s: Master, slaves: map<nat, int>)
    requires Inv(s, {})
    ensures Inv(WithSlaves(s, slaves), {})
  {
    var s' := WithSlaves(s, slaves);
    forall e
      ensures OnePlace(s', {}, e)
    {
      assert OnePlace(s, {}, e);
    }
  }

  /** s is the state while the observers run. */
  lemma ExitSettles(s: Master, s': Master, e: Edge, success: bool)
    requires Inv(s, {e}) && Inv(s', {}) && s.buildFinished == |s.exitFailed| && s'.crew.exiting == {}
    requires s'.exitFailed == if success then s.exitFailed else s.exitFailed + {e}
    requires s'.buildFinished == s.buildFinished + (if success then 0 else 1) + (if MoreToDo(s') then 0 else 1)
    requires s'.failed == {} && MoreToDo(s') ==> s'.crew.local != map[]
    requires !success ==> e in s'.failed
    ensures Settled(s')
    ensures !success ==> s'.buildFinished == s.buildFinished + 1
  {
    assert OnePlace(s, {e}, e);
    NothingRunsAtTheEnd(s');
    if s'.failed != {} {
      FailedIsUnfinished(s');
    }
  }

  lemma NoneReadyAtTheEnd(s: Master)
    requires Inv(s, {}) && !MoreToDo(s)
    ensures NoneReady(s)
  {
    forall e
      ensures !IsReady(s, e)
    {
      assert OnePlace(s, {}, e);
    }
  }

  lemma NothingRunsAtTheEnd(s: Master)
    requires Inv(s, {})
    ensures !MoreToDo(s) ==> s.crew.local == map[]
  {
    if s.crew.local != map[] {
      RunningIsUnfinished(s);
    }
  }

  lemma InHandIsNotListed(s: Master, e: Edge, ranHere: bool)
    requires Inv(s, if ranHere then {e} else {})
    requires !ranHere ==> e in s.outstanding
    ensures ranHere <==> e !in s.outstanding
  {
    assert OnePlace(s, if ranHere then {e} else {}, e);
    CountIn(s.outstanding, e);
  }
}
