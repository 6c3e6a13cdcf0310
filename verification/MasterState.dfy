/**
 The main-thread state of the master as a value: DNBuilder's plan and lists,
 the command executor, MasterMainRunner's maps, and what is on its way to and
 from the slaves.  Each small change the handlers make is a function here, with
 a lemma that says which edges change hands.
 */
module MasterStates {
  import opened CommandExecutors
  import opened Plans
  import opened Sets

  /** Local execution: the executor and the edges its subprocesses build. */
  datatype Crew = Crew(
    exec: Exec,                       // command_executor_
    commandEdge: map<string, Edge>,   // command_edge_map_
    local: map<Edge, nat>,            // the edges that run locally, each with its subprocess
    exiting: set<nat>)                // the subprocess whose observers are running

  /** Remote execution: MasterMainRunner's maps and the requests on their way. */
  datatype Remote = Remote(
    slaves: map<nat, int>,             // slave_info_id_map_: number_of_processors
    outstandingEdges: map<nat, Edge>,  // outstanding_edges_
    inFlight: map<Edge, nat>)          // requests a slave has not answered, with its connection

  datatype Master = Master(
    g: Graph,
    handedOut: set<Edge>,    // what FindWork and FindRemoteWork have returned
    finished: set<Edge>,     // what EdgeFinished has been called for
    finishLog: seq<Edge>,    // those calls in order
    outstanding: seq<Edge>,  // outstanding_edge_list_
    failed: set<Edge>,       // edges that were dropped because of an error
    exitFailed: set<Edge>,   // those of them whose local command exited with failure
    crew: Crew,
    remote: Remote,
    buildFinished: nat)      // how often BuildFinished was called

  /** FindWork can return e. */
  predicate IsReady(s: Master, e: Edge) {
    e in s.g.wanted && e !in s.handedOut && Needs(s.g, e) <= s.finished
  }

  predicate MoreToDo(s: Master) {
    s.finished != s.g.wanted
  }

  // ---- Invariants ----

  /** In how many places edge e is kept. */
  function Holds(
    outstanding: seq<Edge>, local: map<Edge, nat>, finished: set<Edge>, failed: set<Edge>, e: Edge): nat
  {
    Count(outstanding, e) + (if e in local then 1 else 0)
    + (if e in finished then 1 else 0) + (if e in failed then 1 else 0)
  }

  /**
   Every edge that was handed out is in exactly one place: outstanding (once),
   running locally, finished, dropped after an error, or in hand, which is
   where a handler has it between taking it from one place and putting it in
   the next.  Edges that were not handed out are nowhere.
   */
  ghost predicate OnePlace(s: Master, hand: set<Edge>, e: Edge) {
    Holds(s.outstanding, s.crew.local, s.finished, s.failed, e) + (if e in hand then 1 else 0)
    == if e in s.handedOut then 1 else 0
  }

  ghost predicate Conserved(s: Master, hand: set<Edge>) {
    forall e :: OnePlace(s, hand, e)
  }

  /** An edge is handed out only when everything it needs is finished. */
  ghost predicate StartsInOrder(g: Graph, handedOut: set<Edge>, finished: set<Edge>) {
    && handedOut <= g.wanted
    && (forall e :: e in handedOut ==> Needs(g, e) <= finished)
  }

  /** EdgeFinished was called at most once per edge, in dependency order. */
  ghost predicate FinishedOnce(g: Graph, finishLog: seq<Edge>, finished: set<Edge>) {
    && InOrder(g, finishLog)
    && (forall e :: e in finishLog <==> e in finished)
  }

  /** The builder never lets the executor queue a command. */
  ghost predicate ExecOk(e: Exec) {
    ExecInv(e) && e.queue == [] && e.posted == [] && e.parallelism >= 1
  }

  /** Every subprocess that is not exiting runs one local edge, which its command string leads back to. */
  ghost predicate Staffed(
    g: Graph, processes: map<nat, string>, commandEdge: map<string, Edge>, local: map<Edge, nat>, exiting: set<nat>)
  {
    && |exiting| <= 1 && exiting <= processes.Keys
    && (forall e :: e in local ==>
          && local[e] in processes && local[e] !in exiting
          && e in g.command && processes[local[e]] == g.command[e]
          && g.command[e] in commandEdge && commandEdge[g.command[e]] == e)
    && (forall t :: t in processes && t !in exiting ==>
          && processes[t] in commandEdge && commandEdge[processes[t]] in local
          && local[commandEdge[processes[t]]] == t)
  }

  ghost predicate RunsLocally(g: Graph, c: Crew) {
    ExecOk(c.exec) && Staffed(g, c.exec.processes, c.commandEdge, c.local, c.exiting)
  }

  /** A reply to an unanswered request will find its edge. */
  ghost predicate RepliesFindEdges(g: Graph, handedOut: set<Edge>, r: Remote) {
    forall e :: e in r.inFlight ==>
      && e in handedOut && e in g.hash && g.hash[e] in r.outstandingEdges
      && r.outstandingEdges[g.hash[e]] == e
  }

  /** Phony edges are finished without running. */
  ghost predicate NoPhony(g: Graph, local: map<Edge, nat>) {
    forall e :: e in local ==> e !in g.phony
  }

  ghost predicate Inv(s: Master, hand: set<Edge>) {
    && WellFormed(s.g)
    && Conserved(s, hand)
    && StartsInOrder(s.g, s.handedOut, s.finished)
    && FinishedOnce(s.g, s.finishLog, s.finished)
    && RunsLocally(s.g, s.crew)
    && NoPhony(s.g, s.crew.local)
    && RepliesFindEdges(s.g, s.handedOut, s.remote)
    && s.exitFailed <= s.failed
  }

  /**
   Between two main-thread events: BuildFinished has been called once for each
   local command that failed and once if no work remains, and in a run without
   errors work remains exactly when a local command is running.
   */
  ghost predicate Settled(s: Master) {
    && s.crew.exiting == {}
    && s.buildFinished == |s.exitFailed| + (if MoreToDo(s) then 0 else 1)
    && (s.failed == {} ==> (MoreToDo(s) <==> s.crew.local != map[]))
  }

  // ---- Changes ----

  function HandOut(s: Master, e: Edge): Master {
    s.(handedOut := s.handedOut + {e})
  }

  lemma HandOutKeeps(s: Master, e: Edge)
    requires Inv(s, {}) && IsReady(s, e)
    ensures Inv(HandOut(s, e), {e})
  {
    var s' := HandOut(s, e);
    forall f
      ensures OnePlace(s', {e}, f)
    {
      assert OnePlace(s, {}, f);
    }
  }

  /** Plan::EdgeFinished. */
  function Finish(s: Master, e: Edge): Master {
    s.(finished := s.finished + {e}, finishLog := s.finishLog + [e])
  }

  lemma FinishKeeps(s: Master, e: Edge)
    requires Inv(s, {e})
    ensures Inv(Finish(s, e), {})
  {
    var s' := Finish(s, e);
    assert OnePlace(s, {e}, e);
    forall f
      ensures OnePlace(s', {}, f)
    {
      assert OnePlace(s, {e}, f);
    }
    InOrderSnoc(s.g, s.finishLog, e);
  }

  function Push(s: Master, e: Edge): Master {
    s.(outstanding := s.outstanding + [e])
  }

  lemma PushKeeps(s: Master, e: Edge)
    requires Inv(s, {e})
    ensures Inv(Push(s, e), {})
  {
    var s' := Push(s, e);
    assert OnePlace(s, {e}, e);
    forall f
      ensures OnePlace(s', {}, f)
    {
      CountSnoc(s.outstanding, e, f);
      assert OnePlace(s, {e}, f);
    }
  }

  function Take(s: Master, i: nat): Master
    requires i < |s.outstanding|
  {
    s.(outstanding := Without(s.outstanding, i))
  }

  lemma TakeKeeps(s: Master, i: nat)
    requires Inv(s, {}) && i < |s.outstanding|
    ensures Inv(Take(s, i), {s.outstanding[i]})
  {
    var s', e := Take(s, i), s.outstanding[i];
    forall f
      ensures OnePlace(s', {e}, f)
    {
      CountWithout(s.outstanding, i, f);
      assert OnePlace(s, {}, f);
    }
  }

  /** The edge is given up: no handler will finish it. */
  function Drop(s: Master, e: Edge): Master {
    s.(failed := s.failed + {e})
  }

  lemma DropKeeps(s: Master, e: Edge)
    requires Inv(s, {e})
    ensures Inv(Drop(s, e), {})
  {
    var s' := Drop(s, e);
    assert OnePlace(s, {e}, e);
    forall f
      ensures OnePlace(s', {}, f)
    {
      assert OnePlace(s, {e}, f);
    }
  }

  /** The command of the dropped edge e exited with failure, which is reported. */
  function Report(s: Master, e: Edge): Master {
    s.(exitFailed := s.exitFailed + {e}, buildFinished := s.buildFinished + 1)
  }

  lemma ReportKeeps(s: Master, e: Edge)
    requires Inv(s, {}) && e in s.failed
    ensures Inv(Report(s, e), {})
  {
    var s' := Report(s, e);
    forall f
      ensures OnePlace(s', {}, f)
    {
      assert OnePlace(s, {}, f);
    }
  }

  /** StartEdgeLocally after the directories and the response file have been written. */
  function Employ(g: Graph, c: Crew, e: Edge): Crew
    requires e in g.command
  {
    var command := g.command[e];
    Crew(Submit(c.exec, command), c.commandEdge[command := e], c.local[e := |c.exec.submitted|], c.exiting)
  }

  lemma StaffedMore(
    g: Graph, processes: map<nat, string>, commandEdge: map<string, Edge>, local: map<Edge, nat>, exiting: set<nat>,
    t: nat, e: Edge)
    requires Staffed(g, processes, commandEdge, local, exiting)
    requires t !in processes && e in g.command && e !in local
    requires forall f :: f in local ==> g.command[f] != g.command[e]
    ensures Staffed(g, processes[t := g.command[e]], commandEdge[g.command[e] := e], local[e := t], exiting)
  {
  }

  lemma EmployKeeps(g: Graph, c: Crew, e: Edge)
    requires RunsLocally(g, c) && CanRunMore(c.exec) && e in g.command && e !in c.local
    requires forall f :: f in c.local ==> g.command[f] != g.command[e]
    ensures RunsLocally(g, Employ(g, c, e))
  {
    var t := |c.exec.submitted|;
    SubmitKeeps(c.exec, g.command[e]);
    assert t !in c.exec.processes by {
      assert Places(c.exec, t) == 0;
    }
    StaffedMore(g, c.exec.processes, c.commandEdge, c.local, c.exiting, t, e);
  }

  function RunLocally(s: Master, e: Edge): Master
    requires e in s.g.command
  {
    s.(crew := Employ(s.g, s.crew, e))
  }

  /** No running command has the string of a command edge that is in hand. */
  lemma CommandsDiffer(s: Master, e: Edge)
    requires Inv(s, {e}) && e !in s.g.phony
    ensures e in s.g.command && e !in s.crew.local
    ensures forall f :: f in s.crew.local ==> f in s.g.command && s.g.command[f] != s.g.command[e]
  {
    assert OnePlace(s, {e}, e);
    forall f | f in s.crew.local
      ensures s.g.command[f] != s.g.command[e]
    {
      assert OnePlace(s, {e}, f);
    }
  }

  lemma RunLocallyKeeps(s: Master, e: Edge)
    requires Inv(s, {e}) && CanRunMore(s.crew.exec) && e !in s.g.phony
    ensures e in s.g.command && Inv(RunLocally(s, e), {})
  {
    CommandsDiffer(s, e);
    EmployKeeps(s.g, s.crew, e);
    RunLocallyPlaces(s, e);
    NoPhonyMore(s.g, s.crew.local, e, |s.crew.exec.submitted|);
  }

  lemma NoPhonyMore(g: Graph, local: map<Edge, nat>, e: Edge, t: nat)
    requires NoPhony(g, local) && e !in g.phony
    ensures NoPhony(g, local[e := t])
  {
  }

  lemma RunLocallyPlaces(s: Master, e: Edge)
    requires Conserved(s, {e}) && e in s.g.command && e !in s.crew.local
    ensures Conserved(RunLocally(s, e), {})
  {
    forall f
      ensures OnePlace(RunLocally(s, e), {}, f)
    {
      assert OnePlace(s, {e}, f);
    }
  }

  /** SubprocessExitCallback has looked up the command of e; its observers run now. */
  function Leave(c: Crew, e: Edge): Crew
    requires e in c.local
  {
    c.(local := c.local - {e}, exiting := {c.local[e]})
  }

  lemma LeaveKeeps(g: Graph, c: Crew, e: Edge)
    requires RunsLocally(g, c) && c.exiting == {} && e in c.local
    ensures RunsLocally(g, Leave(c, e))
  {
  }

  function BeginExit(s: Master, e: Edge): Master
    requires e in s.crew.local
  {
    s.(crew := Leave(s.crew, e))
  }

  lemma BeginExitKeeps(s: Master, e: Edge)
    requires Inv(s, {}) && s.crew.exiting == {} && e in s.crew.local
    ensures Inv(BeginExit(s, e), {e})
  {
    var s' := BeginExit(s, e);
    LeaveKeeps(s.g, s.crew, e);
    forall f
      ensures OnePlace(s', {e}, f)
    {
      assert OnePlace(s, {}, f);
    }
  }

  /** The rest of SubprocessExitCallback, after the observers. */
  function Dismiss(c: Crew, t: nat): Crew {
    c.(exec := FinishExit(c.exec, t), exiting := {})
  }

  lemma DismissKeeps(g: Graph, c: Crew, t: nat)
    requires RunsLocally(g, c) && c.exiting == {t}
    ensures t in c.exec.processes
    ensures RunsLocally(g, Dismiss(c, t))
  {
    assert t in c.exiting;
    FinishExitKeeps(c.exec, t);
  }

  function EndExit(s: Master, t: nat): Master {
    s.(crew := Dismiss(s.crew, t))
  }

  lemma EndExitKeeps(s: Master, t: nat)
    requires Inv(s, {}) && s.crew.exiting == {t}
    ensures Inv(EndExit(s, t), {})
  {
    var s' := EndExit(s, t);
    DismissKeeps(s.g, s.crew, t);
    forall f
      ensures OnePlace(s', {}, f)
    {
      assert OnePlace(s, {}, f);
    }
  }

  /** StartEdgeRemotelly: an unknown slave is not asked, and the caller does not mind. */
  function SendRemote(s: Master, e: Edge, connection: nat): Master
    requires e in s.g.hash
  {
    var r := s.remote;
    if connection in r.slaves
    then s.(remote := r.(outstandingEdges := r.outstandingEdges[s.g.hash[e] := e],
                         inFlight := r.inFlight[e := connection]))
    else s
  }

  lemma SendRemoteKeeps(s: Master, e: Edge, connection: nat)
    requires Inv(s, {e})
    ensures e in s.g.hash && Inv(SendRemote(s, e, connection), {e})
  {
    assert OnePlace(s, {e}, e);
    var s' := SendRemote(s, e, connection);
    forall f
      ensures OnePlace(s', {e}, f)
    {
      assert OnePlace(s, {e}, f);
    }
  }

  /** The maps of the master after a reply for e: a failed one keeps its entry. */
  function Reply(s: Master, e: Edge, success: bool): Master
    requires e in s.g.hash
  {
    var r := s.remote;
    s.(remote := r.(inFlight := r.inFlight - {e},
                    outstandingEdges := if success then r.outstandingEdges - {s.g.hash[e]} else r.outstandingEdges))
  }

  lemma ReplyKeeps(s: Master, e: Edge, success: bool)
    requires Inv(s, {}) && e in s.remote.inFlight
    ensures e in s.g.hash && Inv(Reply(s, e, success), {})
  {
    var s' := Reply(s, e, success);
    forall f
      ensures OnePlace(s', {}, f)
    {
      assert OnePlace(s, {}, f);
    }
  }

  /**
   What s' lists beyond s: the edge at each new place was meant for the slave
   to[i], which has been asked for it exactly if it is known.
   */
  ghost predicate Dispatched(s: Master, s': Master, to: seq<nat>) {
    && s.outstanding <= s'.outstanding && |s'.outstanding| == |s.outstanding| + |to|
    && s'.remote.slaves == s.remote.slaves
    && Asked(s'.outstanding[|s.outstanding|..], to, s.remote, s'.remote)
  }

  ghost predicate Asked(es: seq<Edge>, to: seq<nat>, r: Remote, r': Remote)
    requires |to| == |es|
  {
    && (forall i :: 0 <= i < |es| ==> es[i] !in r.inFlight)
    && (forall i :: 0 <= i < |es| && to[i] in r.slaves ==> es[i] in r'.inFlight && r'.inFlight[es[i]] == to[i])
    && (forall e :: e in r'.inFlight && e !in r.inFlight ==> AskedFor(es, to, r, e))
    && (forall e :: e in r.inFlight ==> e in r'.inFlight && r'.inFlight[e] == r.inFlight[e])
  }

  ghost predicate AskedFor(es: seq<Edge>, to: seq<nat>, r: Remote, e: Edge)
    requires |to| == |es|
  {
    exists i :: 0 <= i < |es| && es[i] == e && to[i] in r.slaves
  }

  lemma AskedMore(es: seq<Edge>, fs: seq<Edge>, to: seq<nat>, more: seq<nat>, r: Remote, r1: Remote, r2: Remote)
    requires |to| == |es| && |more| == |fs| && r1.slaves == r.slaves
    requires Asked(es, to, r, r1) && Asked(fs, more, r1, r2)
    ensures Asked(es + fs, to + more, r, r2)
  {
    var all, tos := es + fs, to + more;
    forall i | 0 <= i < |all|
      ensures all[i] !in r.inFlight
      ensures tos[i] in r.slaves ==> all[i] in r2.inFlight && r2.inFlight[all[i]] == tos[i]
    {
      if i < |es| {
        assert all[i] == es[i] && tos[i] == to[i];
      } else {
        assert all[i] == fs[i - |es|] && tos[i] == more[i - |es|];
      }
    }
    forall e | e in r2.inFlight && e !in r.inFlight
      ensures AskedFor(all, tos, r, e)
    {
      AskedForMore(es, fs, to, more, r, r1, e, e in r1.inFlight);
    }
  }

  lemma AskedForMore(
    es: seq<Edge>, fs: seq<Edge>, to: seq<nat>, more: seq<nat>, r: Remote, r1: Remote, e: Edge, early: bool)
    requires |to| == |es| && |more| == |fs| && r1.slaves == r.slaves
    requires if early then AskedFor(es, to, r, e) else AskedFor(fs, more, r1, e)
    ensures AskedFor(es + fs, to + more, r, e)
  {
    if early {
      var i :| 0 <= i < |es| && es[i] == e && to[i] in r.slaves;
      assert (es + fs)[i] == e && (to + more)[i] in r.slaves;
    } else {
      var i :| 0 <= i < |fs| && fs[i] == e && more[i] in r1.slaves;
      assert (es + fs)[|es| + i] == e && (to + more)[|es| + i] in r.slaves;
    }
  }

  lemma DispatchedMore(s: Master, s1: Master, s2: Master, to: seq<nat>, more: seq<nat>)
    requires Dispatched(s, s1, to) && Dispatched(s1, s2, more)
    ensures Dispatched(s, s2, to + more)
  {
    var n, m := |s.outstanding|, |s1.outstanding|;
    AskedMore(s1.outstanding[n..], s2.outstanding[m..], to, more, s.remote, s1.remote, s2.remote);
    assert s2.outstanding[n..] == s1.outstanding[n..] + s2.outstanding[m..];
  }

  // ---- Progress ----

  /** What BuildLoop has done when its while loop is over. */
  ghost predicate Saturated(s: Master) {
    || !CanRunMore(s.crew.exec)
    || (s.outstanding == [] && forall e :: !IsReady(s, e))
  }

  /** More than parallelism subprocesses cannot all be exiting. */
  lemma BusyRuns(g: Graph, c: Crew)
    requires RunsLocally(g, c) && !CanRunMore(c.exec)
    ensures c.local != map[]
  {
    assert |c.exec.processes.Keys| == |c.exec.processes| >= 2;
    if c.exec.processes.Keys <= c.exiting {
      SubsetSize(c.exec.processes.Keys, c.exiting);
    }
    var t :| t in c.exec.processes && t !in c.exiting;
    assert c.commandEdge[c.exec.processes[t]] in c.local;
  }

  /** With nothing left to start, unfinished work means that a local command is running. */
  lemma SaturatedRuns(s: Master)
    requires Inv(s, {}) && Saturated(s) && s.failed == {} && MoreToDo(s)
    ensures s.crew.local != map[]
  {
    if !CanRunMore(s.crew.exec) {
      BusyRuns(s.g, s.crew);
    } else {
      FinishedWanted(s);
      var e := MinimalEdge(s.g, s.g.wanted - s.finished);
      assert Needs(s.g, e) <= s.finished;
      assert !IsReady(s, e);
      assert OnePlace(s, {}, e);
    }
  }

  lemma FinishedWanted(s: Master)
    requires Inv(s, {}) && MoreToDo(s)
    ensures s.finished <= s.handedOut && s.g.wanted - s.finished != {}
  {
    forall e | e in s.finished
      ensures e in s.handedOut
    {
      assert OnePlace(s, {}, e);
    }
  }

  /** An edge that runs locally or is outstanding is not finished. */
  lemma HeldIsUnfinished(s: Master, e: Edge)
    requires Inv(s, {}) && (e in s.crew.local || e in s.outstanding)
    ensures e in s.handedOut && e in s.g.wanted && e !in s.finished && MoreToDo(s)
    ensures e in s.outstanding ==> e !in s.crew.local
  {
    assert OnePlace(s, {}, e);
    CountIn(s.outstanding, e);
  }

  lemma FailedIsUnfinished(s: Master)
    requires Inv(s, {}) && s.failed != {}
    ensures MoreToDo(s)
  {
    var e :| e in s.failed;
    assert OnePlace(s, {}, e);
  }

  lemma RunningIsUnfinished(s: Master)
    requires Inv(s, {}) && s.crew.local != map[]
    ensures MoreToDo(s)
  {
    var e :| e in s.crew.local;
    HeldIsUnfinished(s, e);
  }
}
