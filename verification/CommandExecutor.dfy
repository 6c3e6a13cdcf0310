/**
 common::CommandExecutor: at most parallelism + 1 subprocesses run, the other
 commands wait in a queue.  Exec is the state as a value with a transition
 function per event; the class below keeps the fields the source has.
 */
module CommandExecutors {
  import opened Sets

  /** common::GuessParallelism. */
  function GuessParallelism(processors: int): (p: int)
    ensures processors >= 0 ==> p >= 2 && p > processors
  {
    if processors == 0 || processors == 1 then 2
    else if processors == 2 then 3
    else processors + 2
  }

  /** A submitted command; ticket tells equal command strings apart. */
  datatype Job = Job(ticket: nat, command: string)

  datatype Exec = Exec(
    parallelism: nat,
    running: int,                  // running_commands_
    processes: map<nat, string>,   // subprocss_to_command_, one subprocess per ticket
    queue: seq<Job>,               // pending_command_queue_
    posted: seq<Job>,              // RunCommand tasks waiting in the message loop
    submitted: seq<string>,        // the command of every ticket
    finished: set<nat>)

  // ---- Events ----

  predicate CanRunMore(e: Exec) {
    e.running <= e.parallelism
  }

  /** The body of RunCommand: start a subprocess or queue the job. */
  function Admit(e: Exec, job: Job): Exec {
    if CanRunMore(e)
    then e.(processes := e.processes[job.ticket := job.command], running := e.running + 1)
    else e.(queue := e.queue + [job])
  }

  function Submit(e: Exec, command: string): Exec {
    Admit(e.(submitted := e.submitted + [command]), Job(|e.submitted|, command))
  }

  function SubmitAll(e: Exec, commands: seq<string>): Exec {
    if commands == [] then e
    else Submit(SubmitAll(e, commands[..|commands| - 1]), commands[|commands| - 1])
  }

  /** The message loop runs the oldest posted RunCommand, which may have to queue again. */
  function RunPosted(e: Exec): Exec
    requires e.posted != []
  {
    Admit(e.(posted := e.posted[1..]), e.posted[0])
  }

  /** SubprocessExitCallback after the observers have been told. */
  function FinishExit(e: Exec, ticket: nat): Exec {
    var e1 := e.(processes := e.processes - {ticket}, finished := e.finished + {ticket}, running := e.running - 1);
    if e1.queue == [] then e1 else e1.(posted := e1.posted + [e1.queue[0]], queue := e1.queue[1..])
  }

  /** An exit whose observers submit further commands while the exiting one still counts. */
  function Exit(e: Exec, ticket: nat, submissions: seq<string>): Exec {
    FinishExit(SubmitAll(e, submissions), ticket)
  }

  datatype Event =
    | Submitted(command: string)
    | PostedTaskRuns
    | Exits(ticket: nat, submissions: seq<string>)

  /** An event that cannot occur in e changes nothing. */
  function Apply(e: Exec, event: Event): Exec {
    match event
    case Submitted(command) => Submit(e, command)
    case PostedTaskRuns => if e.posted == [] then e else RunPosted(e)
    case Exits(ticket, submissions) => if ticket in e.processes then Exit(e, ticket, submissions) else e
  }

  function Start(parallelism: nat): Exec {
    Exec(parallelism, 0, map[], [], [], [], {})
  }

  function Run(parallelism: nat, events: seq<Event>): Exec {
    if events == [] then Start(parallelism)
    else Apply(Run(parallelism, events[..|events| - 1]), events[|events| - 1])
  }

  // ---- Invariants ----

  function Occurrences(jobs: seq<Job>, t: nat): nat {
    if jobs == [] then 0
    else (if jobs[0].ticket == t then 1 else 0) + Occurrences(jobs[1..], t)
  }

  /** In how many places the executor holds ticket t. */
  function Places(e: Exec, t: nat): nat {
    Occurrences(e.queue, t) + Occurrences(e.posted, t)
    + (if t in e.processes then 1 else 0) + (if t in e.finished then 1 else 0)
  }

  /** Every submitted command is in exactly one of queued, posted, running and finished. */
  ghost predicate Conserved(e: Exec) {
    forall t: nat :: Places(e, t) == if t < |e.submitted| then 1 else 0
  }

  ghost predicate GenuineJobs(jobs: seq<Job>, submitted: seq<string>) {
    forall i :: 0 <= i < |jobs| ==> jobs[i].ticket < |submitted| && jobs[i].command == submitted[jobs[i].ticket]
  }

  /** What is held under a ticket is the command that was submitted under it. */
  ghost predicate Genuine(e: Exec) {
    && GenuineJobs(e.queue, e.submitted) && GenuineJobs(e.posted, e.submitted)
    && (forall t :: t in e.processes ==> t < |e.submitted| && e.processes[t] == e.submitted[t])
  }

  /** A queued command always has an event ahead that will move it. */
  ghost predicate NotStranded(e: Exec) {
    e.queue != [] ==> e.running + |e.posted| > e.parallelism
  }

  ghost predicate Bounded(e: Exec) {
    e.running == |e.processes| <= e.parallelism + 1
  }

  ghost predicate ExecInv(e: Exec) {
    Conserved(e) && Genuine(e) && NotStranded(e) && Bounded(e)
  }

  lemma {:induction false} OccurrencesSnoc(jobs: seq<Job>, job: Job, t: nat)
    ensures Occurrences(jobs + [job], t) == Occurrences(jobs, t) + if job.ticket == t then 1 else 0
  {
    if jobs == [] {
      assert [job][1..] == [];
    } else {
      OccurrencesSnoc(jobs[1..], job, t);
      assert (jobs + [job])[1..] == jobs[1..] + [job];
    }
  }

  /** Admit takes a job that is nowhere and puts it in one place. */
  lemma AdmitPlaces(e: Exec, job: Job, t: nat)
    requires Places(e, job.ticket) == 0
    ensures Places(Admit(e, job), t) == Places(e, t) + if t == job.ticket then 1 else 0
  {
    OccurrencesSnoc(e.queue, job, t);
  }

  lemma AdmitKeeps(e: Exec, job: Job)
    requires Places(e, job.ticket) == 0
    requires job.ticket < |e.submitted| && job.command == e.submitted[job.ticket]
    requires Genuine(e) && Bounded(e)
    requires e.queue != [] ==> e.running + |e.posted| >= e.parallelism
    requires e.queue != [] && e.running + |e.posted| == e.parallelism ==> CanRunMore(e)
    ensures Genuine(Admit(e, job)) && Bounded(Admit(e, job)) && NotStranded(Admit(e, job))
  {
    assert job.ticket !in e.processes;
    assert (e.processes[job.ticket := job.command]).Keys == e.processes.Keys + {job.ticket};
  }

  lemma SubmitKeeps(e: Exec, command: string)
    requires ExecInv(e)
    ensures ExecInv(Submit(e, command))
  {
    var e1 := e.(submitted := e.submitted + [command]);
    var job := Job(|e.submitted|, command);
    assert Places(e1, job.ticket) == Places(e, job.ticket) == 0;
    AdmitKeeps(e1, job);
    forall t: nat
      ensures Places(Submit(e, command), t) == if t < |e.submitted| + 1 then 1 else 0
    {
      AdmitPlaces(e1, job, t);
      assert Places(e1, t) == Places(e, t);
    }
  }

  lemma {:induction false} SubmitAllKeeps(e: Exec, commands: seq<string>)
    requires ExecInv(e)
    ensures ExecInv(SubmitAll(e, commands))
    ensures SubmitAll(e, commands).submitted == e.submitted + commands
    ensures SubmitAll(e, commands).finished == e.finished
    ensures e.processes.Keys <= SubmitAll(e, commands).processes.Keys
  {
    if commands != [] {
      var n := |commands| - 1;
      SubmitAllKeeps(e, commands[..n]);
      var before := SubmitAll(e, commands[..n]);
      SubmitKeeps(before, commands[n]);
      SubmitGrows(before, commands[n]);
      assert commands == commands[..n] + [commands[n]];
    }
  }

  lemma SubmitGrows(e: Exec, command: string)
    ensures var after := Submit(e, command);
            && after.submitted == e.submitted + [command] && after.finished == e.finished
            && e.processes.Keys <= after.processes.Keys
  {
  }

  lemma RunPostedKeeps(e: Exec)
    requires ExecInv(e) && e.posted != []
    ensures ExecInv(RunPosted(e))
  {
    var job := e.posted[0];
    var e1 := e.(posted := e.posted[1..]);
    forall t: nat
      ensures Places(e, t) == Places(e1, t) + if t == job.ticket then 1 else 0
    {
    }
    assert Places(e, job.ticket) <= 1;
    AdmitKeeps(e1, job);
    forall t: nat
      ensures Places(RunPosted(e), t) == Places(e, t)
    {
      AdmitPlaces(e1, job, t);
    }
  }

  lemma FinishExitKeeps(e: Exec, ticket: nat)
    requires ExecInv(e) && ticket in e.processes
    ensures ExecInv(FinishExit(e, ticket))
  {
    assert (e.processes - {ticket}).Keys == e.processes.Keys - {ticket};
    forall t: nat
      ensures Places(FinishExit(e, ticket), t) == Places(e, t)
    {
      assert Places(e, ticket) <= 1;
      if e.queue != [] {
        OccurrencesSnoc(e.posted, e.queue[0], t);
      }
    }
  }

  /** The invariants hold after every sequence of events. */
  lemma {:induction false} EveryRunKeeps(parallelism: nat, events: seq<Event>)
    ensures ExecInv(Run(parallelism, events))
    ensures Run(parallelism, events).parallelism == parallelism
  {
    if events != [] {
      var n := |events| - 1;
      EveryRunKeeps(parallelism, events[..n]);
      var e := Run(parallelism, events[..n]);
      match events[n] {
        case Submitted(command) => SubmitKeeps(e, command);
        case PostedTaskRuns =>
          if e.posted != [] {
            RunPostedKeeps(e);
          }
        case Exits(ticket, submissions) =>
          SubmitAllKeeps(e, submissions);
          SubmitAllParallelism(e, submissions);
          if ticket in e.processes {
            FinishExitKeeps(SubmitAll(e, submissions), ticket);
          }
      }
    }
  }

  lemma SubmitAllParallelism(e: Exec, commands: seq<string>)
    ensures SubmitAll(e, commands).parallelism == e.parallelism
  {
  }

  /** While work is unfinished there is an event that can occur. */
  lemma WorkCanProceed(parallelism: nat, events: seq<Event>, t: nat)
    ensures var e := Run(parallelism, events);
            t < |e.submitted| && t !in e.finished ==> e.posted != [] || e.processes != map[]
  {
    EveryRunKeeps(parallelism, events);
    var e := Run(parallelism, events);
    assert Places(e, t) == if t < |e.submitted| then 1 else 0;
    if e.processes == map[] {
      assert |e.processes| == 0;
    }
  }

  // ---- First in, first out ----

  /** What goes to the back of the queue when job is offered. */
  function Refused(e: Exec, job: Job): seq<Job> {
    if CanRunMore(e) then [] else [job]
  }

  function RefusedOf(e: Exec, commands: seq<string>): seq<Job> {
    if commands == [] then []
    else
      var before := SubmitAll(e, commands[..|commands| - 1]);
      RefusedOf(e, commands[..|commands| - 1])
      + Refused(before, Job(|before.submitted|, commands[|commands| - 1]))
  }

  /** The jobs that an event lets wait. */
  function Queued(e: Exec, event: Event): seq<Job> {
    match event
    case Submitted(command) => Refused(e, Job(|e.submitted|, command))
    case PostedTaskRuns => if e.posted == [] then [] else Refused(e, e.posted[0])
    case Exits(ticket, submissions) => if ticket in e.processes then RefusedOf(e, submissions) else []
  }

  /** The job that the message loop takes. */
  function Taken(e: Exec, event: Event): seq<Job> {
    if event == PostedTaskRuns && e.posted != [] then [e.posted[0]] else []
  }

  /** All jobs that have had to wait, each time that they had to, in order. */
  function AllQueued(parallelism: nat, events: seq<Event>): seq<Job> {
    if events == [] then []
    else
      var before := events[..|events| - 1];
      AllQueued(parallelism, before) + Queued(Run(parallelism, before), events[|events| - 1])
  }

  /** All jobs that the message loop has taken, in order. */
  function AllTaken(parallelism: nat, events: seq<Event>): seq<Job> {
    if events == [] then []
    else
      var before := events[..|events| - 1];
      AllTaken(parallelism, before) + Taken(Run(parallelism, before), events[|events| - 1])
  }

  lemma {:induction false} RefusedAreQueued(e: Exec, commands: seq<string>)
    ensures var after := SubmitAll(e, commands);
            after.queue == e.queue + RefusedOf(e, commands) && after.posted == e.posted
  {
    if commands != [] {
      RefusedAreQueued(e, commands[..|commands| - 1]);
    }
  }

  /** An exit moves the boundary between what is posted and what is queued, nothing else. */
  lemma FinishExitKeepsOrder(e: Exec, ticket: nat)
    ensures var after := FinishExit(e, ticket);
            && after.posted + after.queue == e.posted + e.queue
            && |after.posted| == |e.posted| + if e.queue == [] then 0 else 1
  {
  }

  lemma AdmitQueues(e: Exec, job: Job)
    ensures Admit(e, job).posted == e.posted && Admit(e, job).queue == e.queue + Refused(e, job)
  {
  }

  lemma RunPostedKeepsOrder(e: Exec)
    requires e.posted != []
    ensures var after := RunPosted(e);
            [e.posted[0]] + after.posted + after.queue == e.posted + e.queue + Refused(e, e.posted[0])
  {
    AdmitQueues(e.(posted := e.posted[1..]), e.posted[0]);
    assert e.posted == [e.posted[0]] + e.posted[1..];
  }

  lemma ExitKeepsOrder(e: Exec, ticket: nat, submissions: seq<string>)
    ensures var after := Exit(e, ticket, submissions);
            after.posted + after.queue == e.posted + e.queue + RefusedOf(e, submissions)
  {
    RefusedAreQueued(e, submissions);
    FinishExitKeepsOrder(SubmitAll(e, submissions), ticket);
  }

  lemma StepKeepsOrder(e: Exec, event: Event)
    ensures var after := Apply(e, event);
            Taken(e, event) + after.posted + after.queue == e.posted + e.queue + Queued(e, event)
  {
    match event {
      case Submitted(command) => AdmitQueues(e, Job(|e.submitted|, command));
      case PostedTaskRuns =>
        if e.posted != [] {
          RunPostedKeepsOrder(e);
        }
      case Exits(ticket, submissions) =>
        ExitKeepsOrder(e, ticket, submissions);
    }
  }

  /** In every run the jobs that have to wait are taken in the order in which they came. */
  lemma {:induction false} FirstInFirstOut(parallelism: nat, events: seq<Event>)
    ensures var e := Run(parallelism, events);
            AllQueued(parallelism, events) == AllTaken(parallelism, events) + e.posted + e.queue
  {
    if events != [] {
      var before, last := events[..|events| - 1], events[|events| - 1];
      FirstInFirstOut(parallelism, before);
      StepKeepsOrder(Run(parallelism, before), last);
      var e, e' := Run(parallelism, before), Run(parallelism, events);
      var taken := AllTaken(parallelism, before);
      OrderChains(taken, e.posted, e.queue, Queued(e, last), Taken(e, last), e'.posted, e'.queue);
    }
  }

  lemma OrderChains(
    taken: seq<Job>, posted: seq<Job>, queue: seq<Job>, queued: seq<Job>,
    now: seq<Job>, posted': seq<Job>, queue': seq<Job>)
    requires now + posted' + queue' == posted + queue + queued
    ensures taken + posted + queue + queued == taken + now + posted' + queue'
  {
    assert taken + posted + queue + queued == taken + (posted + queue + queued);
    assert taken + now + posted' + queue' == taken + (now + posted' + queue');
  }

  // ---- When every command is finished ----

  /** An event that can occur in e and by which nothing new is submitted. */
  predicate Settles(e: Exec, event: Event) {
    match event
    case Submitted(_) => false
    case PostedTaskRuns => e.posted != []
    case Exits(ticket, submissions) => ticket in e.processes && submissions == []
  }

  function ApplyAll(e: Exec, events: seq<Event>): Exec
    decreases |events|
  {
    if events == [] then e else ApplyAll(Apply(e, events[0]), events[1..])
  }

  /** Each of the events can occur when its turn comes, and none submits. */
  predicate AllSettle(e: Exec, events: seq<Event>)
    decreases |events|
  {
    events == [] || (Settles(e, events[0]) && AllSettle(Apply(e, events[0]), events[1..]))
  }

  function Unfinished(e: Exec): int {
    |e.submitted| - |e.finished|
  }

  /** How much is left to do: an unfinished command has to be started and to exit. */
  function Work(e: Exec): int {
    2 * Unfinished(e) + |e.posted|
  }

  predicate AllFinished(e: Exec) {
    forall t: nat :: t < |e.submitted| ==> t in e.finished
  }

  lemma FinishedAreSubmitted(e: Exec)
    requires ExecInv(e)
    ensures Unfinished(e) >= 0 && (Unfinished(e) == 0 ==> AllFinished(e))
  {
    forall t | t in e.finished
      ensures t in Below(|e.submitted|)
    {
      assert Places(e, t) == if t < |e.submitted| then 1 else 0;
    }
    SubsetSize(e.finished, Below(|e.submitted|));
  }

  lemma SettlingKeeps(e: Exec, event: Event)
    requires ExecInv(e) && Settles(e, event)
    ensures ExecInv(Apply(e, event)) && Apply(e, event).submitted == e.submitted
    ensures Work(Apply(e, event)) < Work(e)
  {
    match event {
      case PostedTaskRuns => RunPostedKeeps(e);
      case Exits(ticket, submissions) =>
        FinishExitKeeps(e, ticket);
        assert Places(e, ticket) == if ticket < |e.submitted| then 1 else 0;
    }
  }

  /**
   With no further submissions at most Work(e) events can occur, and when as
   many have occurred, or no other one can, every command is finished.
   */
  lemma {:induction false} EverythingFinishes(e: Exec, events: seq<Event>)
    requires ExecInv(e) && AllSettle(e, events)
    ensures |events| <= Work(e)
    ensures var after := ApplyAll(e, events);
            && after.submitted == e.submitted
            && (|events| == Work(e) ==> AllFinished(after))
            && (after.posted == [] && after.processes == map[] ==> AllFinished(after))
    decreases |events|
  {
    if events == [] {
      FinishedAreSubmitted(e);
      if e.posted == [] && e.processes == map[] {
        NothingLeft(e);
      }
    } else {
      SettlingKeeps(e, events[0]);
      EverythingFinishes(Apply(e, events[0]), events[1..]);
    }
  }

  lemma NothingLeft(e: Exec)
    requires ExecInv(e) && e.posted == [] && e.processes == map[]
    ensures AllFinished(e)
  {
    assert |e.processes| == 0;
    forall t: nat | t < |e.submitted|
      ensures t in e.finished
    {
      assert Places(e, t) == 1;
    }
  }

  /** Such a sequence of events exists from every state: each command can still be finished. */
  lemma {:induction false} CanFinish(e: Exec) returns (events: seq<Event>)
    requires ExecInv(e)
    ensures AllSettle(e, events) && AllFinished(ApplyAll(e, events))
    decreases Work(e)
  {
    FinishedAreSubmitted(e);
    if e.posted == [] && e.processes == map[] {
      events := [];
      NothingLeft(e);
    } else {
      var first := PostedTaskRuns;
      if e.posted == [] {
        var t :| t in e.processes;
        first := Exits(t, []);
      }
      SettlingKeeps(e, first);
      FinishedAreSubmitted(Apply(e, first));
      var rest := CanFinish(Apply(e, first));
      events := [first] + rest;
      assert events[1..] == rest;
    }
  }

  // ---- A queued command can be overtaken for ever ----

  /** As many commands run as may, one waits in the queue, and nothing is posted. */
  predicate Waits(e: Exec, running: nat, job: Job) {
    && e.running == e.parallelism + 1 && e.posted == [] && e.queue == [job]
    && running in e.processes
  }

  /** The running command exits, a new one is submitted, and only then the posted task runs. */
  function Overtaking(e: Exec, running: nat): seq<Event> {
    [Exits(running, []), Submitted("x"), PostedTaskRuns]
  }

  lemma Overtaken(e: Exec, running: nat, job: Job)
    requires Waits(e, running, job)
    ensures Waits(ApplyAll(e, Overtaking(e, running)), |e.submitted|, job)
  {
    var events := Overtaking(e, running);
    var e1 := Apply(e, events[0]);
    assert SubmitAll(e, []) == e;
    assert e1.posted == [job] && e1.queue == [] && e1.running == e.parallelism;
    var e2 := Apply(e1, events[1]);
    assert e2.running == e.parallelism + 1 && e2.posted == [job] && |e.submitted| in e2.processes;
    var e3 := Apply(e2, events[2]);
    assert e3.queue == [job] && e3.posted == [];
    assert events[1..] == [events[1], events[2]] && events[1..][1..] == [events[2]] && [events[2]][1..] == [];
    assert ApplyAll(e2, [events[2]]) == e3;
    assert ApplyAll(e1, events[1..]) == e3;
  }

  /** However long one waits: there is a run after which the job is still queued. */
  lemma {:induction false} OvertakenForEver(e: Exec, running: nat, job: Job, rounds: nat) returns (events: seq<Event>)
    requires Waits(e, running, job)
    ensures |events| == 3 * rounds && ApplyAll(e, events).queue == [job]
    decreases rounds
  {
    if rounds == 0 {
      events := [];
    } else {
      var first := Overtaking(e, running);
      Overtaken(e, running, job);
      var rest := OvertakenForEver(ApplyAll(e, first), |e.submitted|, job, rounds - 1);
      events := first + rest;
      ApplyAllConcat(e, first, rest);
    }
  }

  lemma {:induction false} ApplyAllConcat(e: Exec, a: seq<Event>, b: seq<Event>)
    ensures ApplyAll(e, a + b) == ApplyAll(ApplyAll(e, a), b)
    decreases |a|
  {
    if a == [] {
      assert a + b == b;
    } else {
      ApplyAllConcat(Apply(e, a[0]), a[1..], b);
      assert (a + b)[1..] == a[1..] + b;
    }
  }

  function Submissions(n: nat): seq<Event> {
    if n == 0 then [] else Submissions(n - 1) + [Submitted("x")]
  }

  lemma {:induction false} FirstSubmissions(parallelism: nat, n: nat)
    requires n <= parallelism + 1
    ensures var e := Run(parallelism, Submissions(n));
            && e.parallelism == parallelism && e.running == n == |e.submitted|
            && e.queue == [] && e.posted == [] && (n > 0 ==> n - 1 in e.processes)
  {
    if n > 0 {
      FirstSubmissions(parallelism, n - 1);
      assert Submissions(n)[..|Submissions(n)| - 1] == Submissions(n - 1);
    }
  }

  /** One command more than may run leads to such a state, whatever the parallelism. */
  lemma WaitingIsReached(parallelism: nat)
    ensures Waits(Run(parallelism, Submissions(parallelism + 2)), parallelism, Job(parallelism + 1, "x"))
  {
    var n := parallelism + 1;
    FirstSubmissions(parallelism, n);
    assert Submissions(n + 1)[..|Submissions(n + 1)| - 1] == Submissions(n);
  }

  // ---- The object ----

  class CommandExecutor {
    const parallelism: nat
    var runningCommands: int
    var subprocessToCommand: map<nat, string>
    var pendingCommandQueue: seq<Job>
    var postedTasks: seq<Job>
    var nextTicket: nat

    ghost var submitted: seq<string>
    ghost var finished: set<nat>

    ghost function State(): Exec
      reads this
    {
      Exec(parallelism, runningCommands, subprocessToCommand, pendingCommandQueue, postedTasks, submitted, finished)
    }

    ghost predicate Valid()
      reads this
    {
      nextTicket == |submitted| && ExecInv(State())
    }

    constructor (parallelism: nat)
      ensures Valid() && State() == Start(parallelism)
    {
      this.parallelism := parallelism;
      runningCommands, subprocessToCommand, pendingCommandQueue, postedTasks := 0, map[], [], [];
      nextTicket, submitted, finished := 0, [], {};
    }

    predicate CanRun()
      reads this
      ensures CanRun() == CanRunMore(State())
    {
      runningCommands <= parallelism
    }

    method StartOrQueue(job: Job)
      modifies this`runningCommands, this`subprocessToCommand, this`pendingCommandQueue
      ensures State() == Admit(old(State()), job)
    {
      if runningCommands <= parallelism {
        subprocessToCommand := subprocessToCommand[job.ticket := job.command];
        runningCommands := runningCommands + 1;
      } else {
        pendingCommandQueue := pendingCommandQueue + [job];
      }
    }

    method RunCommand(command: string) returns (ticket: nat)
      requires Valid()
      modifies this
      ensures Valid() && State() == Submit(old(State()), command)
      ensures ticket == |old(submitted)| && submitted == old(submitted) + [command]
      ensures if old(runningCommands) <= parallelism
              then subprocessToCommand == old(subprocessToCommand)[ticket := command]
              else pendingCommandQueue == old(pendingCommandQueue) + [Job(ticket, command)]
    {
      SubmitKeeps(State(), command);
      ticket := nextTicket;
      nextTicket := nextTicket + 1;
      submitted := submitted + [command];
      StartOrQueue(Job(ticket, command));
    }

    method RunPostedTask()
      requires Valid() && postedTasks != []
      modifies this
      ensures Valid() && State() == RunPosted(old(State()))
      ensures postedTasks == old(postedTasks)[1..]
      ensures if old(runningCommands) <= parallelism
              then old(postedTasks)[0].ticket in subprocessToCommand && pendingCommandQueue == old(pendingCommandQueue)
              else pendingCommandQueue == old(pendingCommandQueue) + [old(postedTasks)[0]]
    {
      RunPostedKeeps(State());
      var job := postedTasks[0];
      postedTasks := postedTasks[1..];
      StartOrQueue(job);
    }

    /** Lines 54-65 of SubprocessExitCallback. */
    method CleanUp(ticket: nat)
      requires Valid() && ticket in subprocessToCommand
      modifies this
      ensures Valid() && State() == FinishExit(old(State()), ticket)
      ensures runningCommands == old(runningCommands) - 1 && ticket !in subprocessToCommand
      ensures postedTasks + pendingCommandQueue == old(postedTasks + pendingCommandQueue)
    {
      FinishExitKeeps(State(), ticket);
      FinishExitKeepsOrder(State(), ticket);
      RemoveExited(ticket);
    }

    method RemoveExited(ticket: nat)
      modifies this`subprocessToCommand, this`finished, this`runningCommands
      modifies this`postedTasks, this`pendingCommandQueue
      ensures State() == FinishExit(old(State()), ticket)
    {
      subprocessToCommand := subprocessToCommand - {ticket};
      finished := finished + {ticket};
      runningCommands := runningCommands - 1;
      if pendingCommandQueue != [] {
        postedTasks := postedTasks + [pendingCommandQueue[0]];
        pendingCommandQueue := pendingCommandQueue[1..];
      }
    }

    method SubprocessExitCallback(ticket: nat, submissions: seq<string>)
      requires Valid() && ticket in subprocessToCommand
      modifies this
      ensures Valid() && State() == Exit(old(State()), ticket, submissions)
    {
      for i := 0 to |submissions|
        invariant Valid() && State() == SubmitAll(old(State()), submissions[..i])
      {
        SubmitAllKeeps(old(State()), submissions[..i]);
        assert submissions[..i + 1][..i] == submissions[..i];
        var _ := RunCommand(submissions[i]);
      }
      assert submissions[..|submissions|] == submissions;
      SubmitAllKeeps(old(State()), submissions);
      CleanUp(ticket);
    }
  }
}
