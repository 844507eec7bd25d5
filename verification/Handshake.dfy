/**
 * The main thread and the worker thread of the installer, as interleaved steps (system.c). SleepThread and WakeupThread
 * count: a wakeup sent to a thread that is not asleep is kept as a token, and SleepThread waits for one and takes it.
 */
module Handshake {
  import opened Wrappers

  /** WORKER_THREAD_CMD_*; dumping and restoring are handled alike. */
  datatype Command = NoCommand | Job | Stop

  /** WORKER_THREAD_RES_*, as far as the main thread tells them apart. */
  datatype Code = Accepted | Busy | Final

  /** Why the main thread is sending: to start a job, to stop it, or to end the worker. */
  datatype Purpose = ForJob | ForStop | ForQuit

  /**
   * The main thread: Send(k, why) stands before the k-th step of SendWorkerThreadCommand: 1 and 2 store the command and
   * its argument, 3 wakes the worker, 4 sleeps, 5 reads the state, 6 wakes the worker again.
   */
  datatype MainPc = Idle | Send(step: nat, why: Purpose) | Poll | Polled(seen: Code) | Close | Quit

  /** The worker: each constructor stands before the step it is named after. */
  datatype WorkerPc =
    | ReadArg | ReadCommand | Sleep
    | JobClear | JobClearArg | JobAccept | JobWake | JobSleep | JobBusy | Running | Finishing | JobCheck
    | AbortClear | AbortClearArg | AbortWake | AbortCode | JobCode
    | OtherClear | OtherClearArg | OtherCode | OtherWake | OtherSleep

  /**
   * `jobs` counts the jobs started and is the argument of the newest one; argument 0 is NULL. `sent` and `consumed` count
   * the commands stored by the main thread and taken by the worker.
   */
  datatype State = State(
    main: MainPc, worker: WorkerPc, command: Command, argument: nat, taken: nat, code: Code,
    mainTokens: nat, workerTokens: nat, fileOpen: bool, jobs: nat, sent: nat, consumed: nat)

  const START := State(Idle, ReadArg, NoCommand, 0, 0, Final, 0, 0, false, 0, 0, 0)

  /** One step of either thread; the choices a thread has are numbered. */
  datatype Action = MainStep(choice: nat) | WorkerStep(choice: nat)

  function Next(s: State, a: Action): Option<State> {
    match a
    case MainStep(choice) => NextMain(s, choice)
    case WorkerStep(choice) => NextWorker(s, choice)
  }

  function NextMain(s: State, choice: nat): Option<State> {
    match s.main
    case Idle =>
      if choice == 0 then Some(s.(main := Send(1, ForJob), fileOpen := true, jobs := s.jobs + 1))
      else Some(s.(main := Send(1, ForQuit)))
    case Send(step, why) =>
      if step == 1 then Some(s.(main := Send(2, why), command := if why == ForJob then Job else Stop, sent := s.sent + 1))
      else if step == 2 then Some(s.(main := Send(3, why), argument := if why == ForJob then s.jobs else 0))
      else if step == 3 then Some(s.(main := Send(4, why), workerTokens := s.workerTokens + 1))
      else if step == 4 then if s.mainTokens == 0 then None else Some(s.(main := Send(5, why), mainTokens := s.mainTokens - 1))
      else if step == 5 then Some(s.(main := Send(6, why)))
      else Some(s.(main := AfterSend(why), workerTokens := s.workerTokens + 1))
    case Poll => Some(s.(main := Polled(s.code)))
    case Polled(seen) =>
      if choice == 0 then Some(s.(main := Send(1, ForStop)))
      else if seen == Final then Some(s.(main := Close))
      else Some(s.(main := Poll))
    case Close => Some(s.(main := Idle, fileOpen := false))
    case Quit => None
  }

  function AfterSend(why: Purpose): MainPc {
    match why
    case ForJob => Poll
    case ForStop => Close
    case ForQuit => Quit
  }

  function NextWorker(s: State, choice: nat): Option<State> {
    match s.worker
    case ReadArg => Some(s.(worker := ReadCommand, taken := s.argument))
    case ReadCommand =>
      Some(s.(worker := match s.command case NoCommand => Sleep case Job => JobClear case Stop => OtherClear))
    case Sleep => if s.workerTokens == 0 then None else Some(s.(worker := ReadArg, workerTokens := s.workerTokens - 1))
    case JobClear => Some(s.(worker := JobClearArg, command := NoCommand, consumed := s.consumed + 1))
    case JobClearArg => Some(s.(worker := JobAccept, argument := 0))
    case JobAccept => Some(s.(worker := JobWake, code := Accepted))
    case JobWake => Some(s.(worker := JobSleep, mainTokens := s.mainTokens + 1))
    case JobSleep => if s.workerTokens == 0 then None else Some(s.(worker := JobBusy, workerTokens := s.workerTokens - 1))
    case JobBusy => Some(s.(worker := Running, code := Busy))
    case Running => if choice == 0 then Some(s) else Some(s.(worker := Finishing))
    case Finishing => Some(s.(worker := JobCheck))
    case JobCheck => Some(s.(worker := if s.command == Stop then AbortClear else JobCode))
    case AbortClear => Some(s.(worker := AbortClearArg, command := NoCommand, consumed := s.consumed + 1))
    case AbortClearArg => Some(s.(worker := AbortWake, argument := 0))
    case AbortWake => Some(s.(worker := AbortCode, mainTokens := s.mainTokens + 1))
    case AbortCode => Some(s.(worker := JobCode, code := Final))
    case JobCode => Some(s.(worker := ReadArg, code := Final))
    case OtherClear => Some(s.(worker := OtherClearArg, command := NoCommand, consumed := s.consumed + 1))
    case OtherClearArg => Some(s.(worker := OtherCode, argument := 0))
    case OtherCode => Some(s.(worker := OtherWake, code := Final))
    case OtherWake => Some(s.(worker := OtherSleep, mainTokens := s.mainTokens + 1))
    case OtherSleep => if s.workerTokens == 0 then None else Some(s.(worker := ReadArg, workerTokens := s.workerTokens - 1))
  }

  /** A run is a sequence of steps that are all possible where they are taken. */
  function Run(s: State, actions: seq<Action>): Option<State>
    decreases |actions|
  {
    if actions == [] then Some(s) else
    match Next(s, actions[0])
    case None => None
    case Some(t) => Run(t, actions[1..])
  }

  /** The worker has taken a command and has still to wake the main thread for it. */
  predicate Owes(w: WorkerPc) {
    match w
    case JobClearArg | JobAccept | JobWake | AbortClearArg | AbortWake | OtherClearArg | OtherCode | OtherWake => true
    case _ => false
  }

  /** The worker has decided to run a job and may still use its parameters, its file or its buffers. */
  predicate InJob(w: WorkerPc) {
    match w
    case JobClear | JobClearArg | JobAccept | JobWake | JobSleep | JobBusy | Running | Finishing | JobCheck => true
    case _ => false
  }

  predicate TouchesFile(w: WorkerPc) {
    w == Running || w == Finishing
  }

  /** The main thread has stored a command and has not been woken for it yet. */
  predicate Waiting(m: MainPc) {
    m.Send? && 2 <= m.step <= 4
  }

  /** The main thread is inside PerformMemoryCardDump or PerformMemoryCardRestore, its file open. */
  predicate HoldsFile(m: MainPc) {
    match m
    case Idle | Quit => false
    case Send(_, why) => why != ForQuit
    case _ => true
  }

  function One(b: bool): nat {
    if b then 1 else 0
  }

  /** Commands and the wakeups that answer them are matched one to one. */
  ghost predicate Answered(s: State) {
    && s.sent == s.consumed + One(s.command != NoCommand)
    && s.mainTokens + One(Owes(s.worker)) + One(s.command != NoCommand) == One(Waiting(s.main))
    && (s.main.Send? ==> 1 <= s.main.step <= 6)
    && (s.command == Job ==> s.main.why == ForJob) && (s.command == Stop ==> s.main.why != ForJob)
    && (s.worker == JobClear ==> s.command == Job)
    && (s.worker == AbortClear || s.worker == OtherClear ==> s.command == Stop)
  }

  /** A worker that sleeps has a wakeup, or will get one from the main thread without waiting for anything. */
  ghost predicate Rousable(s: State) {
    && (s.worker == JobSleep || s.worker == OtherSleep ==>
          0 < s.workerTokens || (s.main.Send? && s.command == NoCommand && 2 <= s.main.step))
    && (s.worker == Sleep && s.command != NoCommand && s.main.Send? && s.main.step == 4 ==> 0 < s.workerTokens)
  }

  /** The result code tells a job in progress from one that is done, whenever the main thread can look. */
  ghost predicate Coded(s: State) {
    match s.worker
    case JobClear | JobClearArg | JobAccept => Waiting(s.main) && s.main.why == ForJob
    case JobWake | JobSleep | JobBusy => s.code == Accepted
    case Running | Finishing | JobCheck => s.code == Busy
    case _ => true
  }

  /** Where the main thread is past a job, or has not begun one, the worker is not in a job. */
  ghost predicate Apart(s: State) {
    && s.fileOpen == HoldsFile(s.main)
    && match s.main
       case Idle | Quit | Close => !InJob(s.worker)
       case Polled(seen) => seen == Final ==> !InJob(s.worker)
       case Poll => true
       case Send(step, why) =>
         match why
         case ForQuit => !InJob(s.worker)
         case ForJob => step == 1 || s.command == Job ==> !InJob(s.worker) || s.worker == JobClear
         case ForStop => 2 <= step && s.command == NoCommand ==> !InJob(s.worker)
  }

  /** Arguments are numbers of jobs that have been started. */
  ghost predicate Arguments(s: State) {
    && s.argument <= s.jobs && s.taken <= s.jobs
    && (s.main == Send(1, ForJob) || s.main == Send(2, ForJob) ==> s.argument < s.jobs)
    && (s.main == Send(1, ForJob) ==> s.taken < s.jobs)
  }

  ghost predicate Inv(s: State) {
    Answered(s) && Rousable(s) && Coded(s) && Apart(s) && Arguments(s)
  }

  lemma MainKeepsAnswered(s: State, choice: nat)
    requires Answered(s) && NextMain(s, choice).Some?
    ensures Answered(NextMain(s, choice).value)
  {
    hide Apart, Arguments, Rousable, Coded;
  }

  lemma MainKeepsRousable(s: State, choice: nat)
    requires Answered(s) && Rousable(s) && NextMain(s, choice).Some?
    ensures Rousable(NextMain(s, choice).value)
  {
    hide Apart, Arguments, Coded;
  }

  lemma MainKeepsCoded(s: State, choice: nat)
    requires Answered(s) && Coded(s) && NextMain(s, choice).Some?
    ensures Coded(NextMain(s, choice).value)
  {
    hide Apart, Arguments, Rousable;
  }

  lemma MainKeepsApart(s: State, choice: nat)
    requires Answered(s) && Coded(s) && Apart(s) && NextMain(s, choice).Some?
    ensures Apart(NextMain(s, choice).value)
  {
    hide Arguments, Rousable;
  }

  lemma MainKeepsArguments(s: State, choice: nat)
    requires Answered(s) && Arguments(s) && NextMain(s, choice).Some?
    ensures Arguments(NextMain(s, choice).value)
  {
    hide Apart, Rousable, Coded;
  }

  lemma WorkerKeepsAnswered(s: State, choice: nat)
    requires Answered(s) && Coded(s) && NextWorker(s, choice).Some?
    ensures Answered(NextWorker(s, choice).value)
  {
    hide Apart, Arguments, Rousable;
  }

  lemma WorkerKeepsRousable(s: State, choice: nat)
    requires Answered(s) && Rousable(s) && NextWorker(s, choice).Some?
    ensures Rousable(NextWorker(s, choice).value)
  {
    hide Apart, Arguments, Coded;
  }

  lemma WorkerKeepsCoded(s: State, choice: nat)
    requires Answered(s) && Coded(s) && NextWorker(s, choice).Some?
    ensures Coded(NextWorker(s, choice).value)
  {
    hide Apart, Arguments, Rousable;
  }

  lemma WorkerKeepsApart(s: State, choice: nat)
    requires Answered(s) && Coded(s) && Apart(s) && NextWorker(s, choice).Some?
    ensures Apart(NextWorker(s, choice).value)
  {
    hide Arguments, Rousable;
  }

  lemma WorkerKeepsArguments(s: State, choice: nat)
    requires Arguments(s) && NextWorker(s, choice).Some?
    ensures Arguments(NextWorker(s, choice).value)
  {
    hide Apart, Answered, Rousable, Coded;
  }

  lemma NextKeepsInv(s: State, a: Action)
    requires Inv(s) && Next(s, a).Some?
    ensures Inv(Next(s, a).value)
  {
    hide Answered, Rousable, Coded, Apart, Arguments, NextMain, NextWorker;
    match a
    case MainStep(choice) =>
      MainKeepsAnswered(s, choice);
      MainKeepsRousable(s, choice);
      MainKeepsCoded(s, choice);
      MainKeepsApart(s, choice);
      MainKeepsArguments(s, choice);
    case WorkerStep(choice) =>
      WorkerKeepsAnswered(s, choice);
      WorkerKeepsRousable(s, choice);
      WorkerKeepsCoded(s, choice);
      WorkerKeepsApart(s, choice);
      WorkerKeepsArguments(s, choice);
  }

  lemma {:induction false} RunKeepsInv(s: State, actions: seq<Action>)
    requires Inv(s) && Run(s, actions).Some?
    ensures Inv(Run(s, actions).value)
    decreases |actions|
  {
    hide Inv, Next;
    if actions != [] {
      NextKeepsInv(s, actions[0]);
      RunKeepsInv(Next(s, actions[0]).value, actions[1..]);
    }
  }

  lemma StartKeepsInv(actions: seq<Action>)
    requires Run(START, actions).Some?
    ensures Inv(Run(START, actions).value)
  {
    hide Next;
    RunKeepsInv(START, actions);
  }

  /**
   * Every command the main thread stores is taken by the worker exactly once, and SendWorkerThreadCommand returns only
   * after the command it stored has been taken; no wakeup is left over for the main thread.
   */
  lemma CommandsAcknowledged(actions: seq<Action>)
    requires Run(START, actions).Some?
    ensures var s := Run(START, actions).value;
            && s.sent == s.consumed + One(s.command != NoCommand)
            && (!Waiting(s.main) ==> s.sent == s.consumed && s.command == NoCommand && s.mainTokens == 0)
  {
    hide Next, Apart, Arguments, Rousable, Coded;
    StartKeepsInv(actions);
  }

  /** A file is closed only when no job is in the worker's hands, also when a stop command arrives while the job is ending. */
  lemma FileClosedAfterJob(actions: seq<Action>)
    requires Run(START, actions).Some?
    ensures var s := Run(START, actions).value;
            s.main == Close || !s.fileOpen ==> !InJob(s.worker)
  {
    hide Next, Arguments, Rousable, Coded;
    StartKeepsInv(actions);
  }

  /** Steps of the worker that lie before the wakeup for a stored command. */
  function Distance(s: State): nat {
    match s.worker
    case Finishing => 5
    case JobCheck => 4
    case AbortClear => 3
    case AbortClearArg => 2
    case AbortWake | JobWake | OtherWake => 1
    case JobAccept | OtherCode => 2
    case JobClearArg | OtherClearArg => 3
    case JobClear | OtherClear => 4
    case ReadCommand => if s.command == NoCommand then 7 else 5
    case ReadArg => 6
    case Sleep | OtherSleep => 7
    case JobCode => 7
    case AbortCode => 8
    case Running => 6
    case JobBusy => 7
    case JobSleep => 8
  }

  function WorkerSteps(n: nat): seq<Action> {
    seq(n, i => WorkerStep(1))
  }

  lemma WorkerComesCloser(s: State)
    requires Inv(s) && s.main.Send? && s.main.step == 4 && s.mainTokens == 0
    ensures NextWorker(s, 1).Some?
    ensures var t := NextWorker(s, 1).value; t.main == s.main && (t.mainTokens > 0 || Distance(t) < Distance(s))
  {
    hide Arguments;
  }

  /**
   * A main thread that sleeps in SendWorkerThreadCommand is never stuck: the worker is not blocked, and once the unit of
   * work in hand is over it wakes the main thread in at most eight steps of its own.
   */
  lemma {:induction false} MainIsWoken(s: State) returns (n: nat)
    requires Inv(s) && s.main.Send? && s.main.step == 4 && s.mainTokens == 0
    ensures 1 <= n <= Distance(s) <= 8
    ensures Run(s, WorkerSteps(n)).Some? && Run(s, WorkerSteps(n)).value.mainTokens > 0
    ensures Run(s, WorkerSteps(n)).value.main == s.main
    decreases Distance(s)
  {
    hide Inv, NextWorker;
    WorkerComesCloser(s);
    var t := Next(s, WorkerStep(1)).value;
    if t.mainTokens > 0 {
      n := 1;
      assert WorkerSteps(1)[1..] == [];
    } else {
      NextKeepsInv(s, WorkerStep(1));
      var m := MainIsWoken(t);
      n := m + 1;
      assert WorkerSteps(n)[1..] == WorkerSteps(m);
    }
  }

  /** In no run do both threads end up asleep without a wakeup, until the main thread has ended the worker. */
  lemma NeverBothAsleep(actions: seq<Action>)
    requires Run(START, actions).Some?
    ensures var s := Run(START, actions).value;
            s.main != Quit ==> NextMain(s, 0).Some? || NextWorker(s, 0).Some?
  {
    hide Next, Arguments, Coded, Apart;
    StartKeepsInv(actions);
  }

  /** The newest job, if the worker is at it, works on the parameters that were sent with it. */
  ghost predicate RightArgument(s: State, job: nat) {
    s.jobs == job && TouchesFile(s.worker) ==> s.taken == job
  }

  /** What keeps the argument of `job` right once the worker was asleep when the job was sent. */
  ghost predicate Delivered(s: State, job: nat) {
    job < s.jobs || (s.jobs == job &&
      if s.main.Send? && s.main.why == ForJob && s.main.step <= 3 then
        && s.worker == Sleep && s.workerTokens == 0
        && (s.main.step == 1 || s.command == Job) && (s.main.step == 3 ==> s.argument == job)
      else
        && (s.command == Job ==>
              && s.argument == job && !s.worker.OtherClear?
              && (s.worker == ReadCommand || s.worker == JobClear ==> s.taken == job))
        && (InJob(s.worker) ==> s.taken == job))
  }

  lemma DeliveredKept(s: State, a: Action, job: nat)
    requires Inv(s) && Delivered(s, job) && Next(s, a).Some?
    ensures Delivered(Next(s, a).value, job)
  {
    hide Rousable, Arguments;
  }

  lemma {:induction false} DeliveredAlways(s: State, actions: seq<Action>, job: nat)
    requires Inv(s) && Delivered(s, job) && Run(s, actions).Some?
    ensures Inv(Run(s, actions).value) && Delivered(Run(s, actions).value, job)
    decreases |actions|
  {
    hide Inv, Next, Delivered;
    if actions != [] {
      NextKeepsInv(s, actions[0]);
      DeliveredKept(s, actions[0], job);
      DeliveredAlways(Next(s, actions[0]).value, actions[1..], job);
    }
  }

  lemma {:induction false} RunAppends(s: State, first: seq<Action>, second: seq<Action>)
    requires Run(s, first).Some?
    ensures Run(s, first + second) == Run(Run(s, first).value, second)
    decreases |first|
  {
    hide Next;
    if first == [] {
      assert first + second == second;
    } else {
      assert (first + second)[1..] == first[1..] + second;
      RunAppends(Next(s, first[0]).value, first[1..], second);
    }
  }

  /** A worker that is awake, or has a wakeup, can get as far as having read the argument but not yet the command. */
  lemma {:induction false} ReadsEarly(s: State) returns (n: nat, t: State)
    requires Inv(s) && s.main == Send(1, ForJob) && !(s.worker == Sleep && s.workerTokens == 0)
    ensures Run(s, WorkerSteps(n)) == Some(t)
    ensures Inv(t) && t.main == s.main && t.jobs == s.jobs && t.worker == ReadCommand
    decreases if s.worker == ReadCommand then 0 else Distance(s)
  {
    if s.worker == ReadCommand {
      n, t := 0, s;
    } else {
      var u := Next(s, WorkerStep(1)).value;
      NextKeepsInv(s, WorkerStep(1));
      var m;
      m, t := ReadsEarly(u);
      n := m + 1;
      assert WorkerSteps(n)[1..] == WorkerSteps(m);
    }
  }

  lemma RunsFour(s: State, a: Action, b: Action, c: Action, d: Action)
    requires Next(s, a).Some? && Next(Next(s, a).value, b).Some?
    requires Next(Next(Next(s, a).value, b).value, c).Some?
    ensures Run(s, [a, b, c, d]) == Next(Next(Next(Next(s, a).value, b).value, c).value, d)
  {
    hide Next;
    var t := Next(s, a).value;
    var u := Next(t, b).value;
    var v := Next(u, c).value;
    assert Run(v, [d]) == Next(v, d);
    assert [c, d][1..] == [d];
    assert Run(u, [c, d]) == Run(v, [d]);
    assert [b, c, d][1..] == [c, d];
    assert Run(t, [b, c, d]) == Run(u, [c, d]);
    assert [a, b, c, d][1..] == [b, c, d];
  }

  /** The argument has just been read; if the command is stored next, the job runs on an argument that is not its own. */
  lemma RunsStale(s: State) returns (actions: seq<Action>)
    requires Inv(s) && s.main == Send(1, ForJob) && s.worker == ReadCommand
    ensures Run(s, actions).Some?
    ensures !RightArgument(Run(s, actions).value, s.jobs)
  {
    hide Run;
    var M, W := MainStep(0), WorkerStep(0);
    RunsFour(s, M, M, M, W);
    var t := Run(s, [M, M, M, W]).value;
    RunsFour(t, W, W, W, W);
    var u := Run(t, [W, W, W, W]).value;
    RunsFour(u, W, W, W, M);
    var v := Run(u, [W, W, W, M]).value;
    assert !RightArgument(v, s.jobs);
    RunAppends(s, [M, M, M, W], [W, W, W, W] + [W, W, W, M]);
    RunAppends(t, [W, W, W, W], [W, W, W, M]);
    actions := [M, M, M, W] + ([W, W, W, W] + [W, W, W, M]);
  }

  /**
   * SetWorkerThreadCommand stores the command before its argument while GetWorkerThreadCommand reads the argument before
   * the command. So the job about to be sent is certain to run with its own parameters exactly if the worker is already
   * asleep with no wakeup pending.
   */
  lemma ArgumentArrivesExactlyIfWorkerSleeps(s: State)
    requires Inv(s) && s.main == Send(1, ForJob)
    ensures (forall actions :: Run(s, actions).Some? ==> RightArgument(Run(s, actions).value, s.jobs))
       <==> (s.worker == Sleep && s.workerTokens == 0)
  {
    hide Next;
    if s.worker == Sleep && s.workerTokens == 0 {
      forall actions | Run(s, actions).Some? ensures RightArgument(Run(s, actions).value, s.jobs) {
        DeliveredAlways(s, actions, s.jobs);
      }
    } else {
      var n, t := ReadsEarly(s);
      var rest := RunsStale(t);
      RunAppends(s, WorkerSteps(n), rest);
      assert Run(s, WorkerSteps(n) + rest).Some?;
    }
  }

  /** So from the very start there is a run in which the first job does not get its parameters. */
  lemma FirstArgumentCanBeLost() returns (actions: seq<Action>)
    ensures Run(START, actions).Some?
    ensures !RightArgument(Run(START, actions).value, 1)
  {
    hide Inv;
    var s := Next(START, MainStep(0)).value;
    NextKeepsInv(START, MainStep(0)) by { assert Inv(START) by { StartKeepsInv([]); } }
    ArgumentArrivesExactlyIfWorkerSleeps(s);
    var rest :| Run(s, rest).Some? && !RightArgument(Run(s, rest).value, s.jobs);
    actions := [MainStep(0)] + rest;
    RunAppends(START, [MainStep(0)], rest);
    assert [MainStep(0)][1..] == [];
  }

  /** Each job has a file of its own; only that of the newest job can be open. */
  predicate FileOpen(s: State, job: nat) {
    s.fileOpen && job == s.jobs
  }

  /** The file that the worker uses is the one its argument names; it is open. */
  predicate OwnFileOpen(s: State) {
    TouchesFile(s.worker) ==> FileOpen(s, s.taken)
  }

  /** A step that sends a job finds the worker asleep, with no wakeup pending. */
  predicate Prompt(s: State, a: Action) {
    a.MainStep? && s.main == Send(1, ForJob) ==> s.worker == Sleep && s.workerTokens == 0
  }

  /** Every job of a run is sent to a worker that sleeps. */
  predicate PromptRun(s: State, actions: seq<Action>)
    requires Run(s, actions).Some?
    decreases |actions|
  {
    actions == [] || (Prompt(s, actions[0]) && PromptRun(Next(s, actions[0]).value, actions[1..]))
  }

  /** What runs of that kind keep: the worker takes the newest job's argument with its command. */
  ghost predicate Steady(s: State) {
    if s.main.Send? && s.main.why == ForJob && 2 <= s.main.step <= 3 then
      s.worker == Sleep && s.workerTokens == 0 && s.command == Job && (s.main.step == 3 ==> s.argument == s.jobs)
    else
      && (s.command == Job ==>
            s.argument == s.jobs && !s.worker.OtherClear? && (s.worker == ReadCommand || s.worker == JobClear ==> s.taken == s.jobs))
      && (InJob(s.worker) ==> s.taken == s.jobs)
  }

  lemma MainKeepsSteady(s: State, choice: nat)
    requires Inv(s) && Steady(s) && Prompt(s, MainStep(choice)) && NextMain(s, choice).Some?
    ensures Steady(NextMain(s, choice).value)
  {
    hide Rousable, Arguments, Coded;
  }

  lemma WorkerKeepsSteady(s: State, choice: nat)
    requires Inv(s) && Steady(s) && NextWorker(s, choice).Some?
    ensures Steady(NextWorker(s, choice).value)
  {
    hide Rousable, Arguments, Coded, Apart;
  }

  lemma {:induction false} PromptRunKeepsSteady(s: State, actions: seq<Action>)
    requires Inv(s) && Steady(s) && Run(s, actions).Some? && PromptRun(s, actions)
    ensures Inv(Run(s, actions).value) && Steady(Run(s, actions).value)
    decreases |actions|
  {
    hide Inv, Steady, NextMain, NextWorker, Prompt;
    if actions != [] {
      NextKeepsInv(s, actions[0]);
      match actions[0] {
        case MainStep(choice) => MainKeepsSteady(s, choice);
        case WorkerStep(choice) => WorkerKeepsSteady(s, choice);
      }
      PromptRunKeepsSteady(Next(s, actions[0]).value, actions[1..]);
    }
  }

  lemma SteadyOwnsFile(s: State)
    requires Inv(s) && Steady(s)
    ensures OwnFileOpen(s)
  {
    hide Rousable, Arguments, Coded;
  }

  lemma {:induction false} PromptAppends(s: State, first: seq<Action>, second: seq<Action>)
    requires Run(s, first).Some? && Run(Run(s, first).value, second).Some?
    ensures Run(s, first + second) == Run(Run(s, first).value, second)
    ensures PromptRun(s, first + second) <==> PromptRun(s, first) && PromptRun(Run(s, first).value, second)
    decreases |first|
  {
    hide Next, Prompt;
    RunAppends(s, first, second);
    if first == [] {
      assert first + second == second;
    } else {
      assert (first + second)[1..] == first[1..] + second;
      PromptAppends(Next(s, first[0]).value, first[1..], second);
    }
  }

  lemma {:induction false} WorkerIsPrompt(s: State, n: nat)
    requires Run(s, WorkerSteps(n)).Some?
    ensures PromptRun(s, WorkerSteps(n))
    decreases n
  {
    hide Next;
    if n > 0 {
      assert WorkerSteps(n)[1..] == WorkerSteps(n - 1);
      WorkerIsPrompt(Next(s, WorkerStep(1)).value, n - 1);
    }
  }

  /** From now on the worker only uses open files, as long as jobs are sent to it when it sleeps. */
  ghost predicate SafeOnwards(s: State) {
    forall rest :: Run(s, rest).Some? && PromptRun(s, rest) ==> OwnFileOpen(Run(s, rest).value)
  }

  /** The command has been stored but not its argument, and the worker, which is up, will read the two as they are. */
  ghost predicate Early(s: State) {
    && Inv(s) && s.main == Send(2, ForJob) && s.argument < s.jobs && !(s.worker == Sleep && s.workerTokens == 0)
    && match s.worker
       case ReadCommand | JobClear | JobClearArg | JobAccept | JobWake | JobSleep => s.taken < s.jobs
       case ReadArg | Sleep | OtherSleep | AbortCode | JobCode => true
       case _ => false
  }

  /** Steps before the worker sleeps in the job it has taken early. */
  function ToJobSleep(w: WorkerPc): nat {
    match w
    case AbortCode => 9
    case JobCode | Sleep | OtherSleep => 8
    case ReadArg => 7
    case ReadCommand => 6
    case JobClear => 5
    case JobClearArg => 4
    case JobAccept => 3
    case JobWake => 2
    case _ => 1
  }

  lemma EarlyGoesOn(s: State)
    requires Early(s) && s.worker != JobSleep && (s.worker == ReadCommand ==> s.command == Job)
    requires s.worker == OtherSleep ==> 0 < s.workerTokens
    ensures NextWorker(s, 1).Some? && Early(NextWorker(s, 1).value)
    ensures ToJobSleep(NextWorker(s, 1).value.worker) < ToJobSleep(s.worker)
    ensures s.command == Job && NextWorker(s, 1).value.worker != JobClearArg ==> NextWorker(s, 1).value.command == Job
  {
    hide Inv;
    NextKeepsInv(s, WorkerStep(1));
  }

  lemma {:induction false} EarlyReachesSleep(s: State) returns (n: nat, t: State)
    requires Early(s) && (ToJobSleep(s.worker) >= 6 ==> s.command == Job && (s.worker == OtherSleep ==> 0 < s.workerTokens))
    ensures Run(s, WorkerSteps(n)) == Some(t) && PromptRun(s, WorkerSteps(n))
    ensures Early(t) && t.worker == JobSleep && t.jobs == s.jobs
    decreases ToJobSleep(s.worker)
  {
    hide Inv;
    if s.worker == JobSleep {
      n, t := 0, s;
    } else {
      EarlyGoesOn(s);
      var u := Next(s, WorkerStep(1)).value;
      var m;
      m, t := EarlyReachesSleep(u);
      n := m + 1;
      assert WorkerSteps(n)[1..] == WorkerSteps(m);
      WorkerIsPrompt(s, n);
    }
  }

  lemma EarlyRunsStale(s: State)
    requires Early(s) && s.worker == JobSleep
    ensures !SafeOnwards(s)
  {
    hide Inv;
    var M, W := MainStep(0), WorkerStep(0);
    RunsFour(s, M, M, W, W);
    var rest := [M, M, W, W];
    assert Run(s, rest).Some? && !OwnFileOpen(Run(s, rest).value);
    PromptFour(s, M, M, W, W);
  }

  lemma PromptFour(s: State, a: Action, b: Action, c: Action, d: Action)
    requires Run(s, [a, b, c, d]).Some? && Next(s, a).Some? && Next(Next(s, a).value, b).Some?
    requires Next(Next(Next(s, a).value, b).value, c).Some?
    requires Prompt(s, a) && Prompt(Next(s, a).value, b) && Prompt(Next(Next(s, a).value, b).value, c)
    requires Prompt(Next(Next(Next(s, a).value, b).value, c).value, d)
    ensures PromptRun(s, [a, b, c, d])
  {
    hide Next, Prompt;
    var t := Next(s, a).value;
    var u := Next(t, b).value;
    var v := Next(u, c).value;
    assert [a, b, c, d][1..] == [b, c, d] && [b, c, d][1..] == [c, d] && [c, d][1..] == [d] && [d][1..] == [];
    assert Run(v, [d]).Some? && PromptRun(v, [d]);
    assert Run(u, [c, d]).Some? && PromptRun(u, [c, d]);
    assert Run(t, [b, c, d]).Some? && PromptRun(t, [b, c, d]);
  }

  /** A job sent to a worker that is up can run on a file that is not open. */
  lemma SentEarlyIsUnsafe(s: State)
    requires Inv(s) && s.main == Send(1, ForJob) && !(s.worker == Sleep && s.workerTokens == 0)
    ensures !SafeOnwards(NextMain(s, 0).value)
  {
    hide SafeOnwards;
    var t := NextMain(s, 0).value;
    NextKeepsInv(s, MainStep(0));
    var n, u := EarlyReachesSleep(t);
    EarlyRunsStale(u);
    UnsafeBefore(t, WorkerSteps(n));
  }

  lemma UnsafeBefore(s: State, first: seq<Action>)
    requires Run(s, first).Some? && PromptRun(s, first) && !SafeOnwards(Run(s, first).value)
    ensures !SafeOnwards(s)
  {
    hide Next, Prompt, OwnFileOpen;
    var t := Run(s, first).value;
    var rest :| Run(t, rest).Some? && PromptRun(t, rest) && !OwnFileOpen(Run(t, rest).value);
    PromptAppends(s, first, rest);
    assert Run(s, first + rest).Some? && PromptRun(s, first + rest) && !OwnFileOpen(Run(s, first + rest).value);
  }

  lemma {:induction false} FirstNotPrompt(s: State, actions: seq<Action>) returns (k: nat)
    requires Run(s, actions).Some? && !PromptRun(s, actions)
    ensures k < |actions| && Run(s, actions[..k]).Some? && !Prompt(Run(s, actions[..k]).value, actions[k])
    ensures Run(s, actions[..k + 1]) == Next(Run(s, actions[..k]).value, actions[k]) && Run(s, actions[..k + 1]).Some?
    decreases |actions|
  {
    hide Next, Prompt;
    if !Prompt(s, actions[0]) {
      k := 0;
      assert actions[..1][1..] == [];
    } else {
      var j := FirstNotPrompt(Next(s, actions[0]).value, actions[1..]);
      k := j + 1;
      assert actions[..k][1..] == actions[1..][..j] && actions[..k + 1][1..] == actions[1..][..j + 1];
    }
  }

  ghost predicate SafeAfter(actions: seq<Action>, k: nat)
    requires k <= |actions|
  {
    Run(START, actions[..k]).Some? && SafeOnwards(Run(START, actions[..k]).value)
  }

  /**
   * Each job of a run was sent to a worker that was asleep with no wakeup pending exactly if, in each of its states and in all
   * that follows such a state with further jobs sent that way, the file that the worker uses is open.
   */
  lemma OwnFileOpenExactlyIfSentToSleeper(actions: seq<Action>)
    requires Run(START, actions).Some?
    ensures PromptRun(START, actions) <==> forall k :: 0 <= k <= |actions| ==> SafeAfter(actions, k)
  {
    hide Inv, Steady, Next, Prompt, OwnFileOpen;
    if PromptRun(START, actions) {
      forall k | 0 <= k <= |actions|
        ensures SafeAfter(actions, k)
      {
        RunHasPrefix(START, actions, k);
        assert actions == actions[..k] + actions[k..];
        PromptAppends(START, actions[..k], actions[k..]);
        PromptIsSafe(actions[..k]);
      }
    } else {
      var k := FirstNotPrompt(START, actions);
      var s := Run(START, actions[..k]).value;
      StartKeepsInv(actions[..k]);
      NotPromptUnsafe(s, actions[k]);
      assert !SafeAfter(actions, k + 1);
    }
  }

  lemma NotPromptUnsafe(s: State, a: Action)
    requires Inv(s) && !Prompt(s, a) && Next(s, a).Some?
    ensures !SafeOnwards(Next(s, a).value)
  {
    hide Inv, SafeOnwards;
    SentEarlyIsUnsafe(s);
  }

  lemma PromptIsSafe(actions: seq<Action>)
    requires Run(START, actions).Some? && PromptRun(START, actions)
    ensures SafeOnwards(Run(START, actions).value)
  {
    hide Steady, Next, Prompt, OwnFileOpen;
    var s := Run(START, actions).value;
    StartIsSteady();
    PromptRunKeepsSteady(START, actions);
    forall rest | Run(s, rest).Some? && PromptRun(s, rest)
      ensures OwnFileOpen(Run(s, rest).value)
    {
      PromptRunKeepsSteady(s, rest);
      SteadyOwnsFile(Run(s, rest).value);
    }
  }

  lemma StartIsSteady()
    ensures Inv(START) && Steady(START)
  {
  }

  lemma {:induction false} RunHasPrefix(s: State, actions: seq<Action>, k: nat)
    requires Run(s, actions).Some? && k <= |actions|
    ensures Run(s, actions[..k]).Some? && Run(Run(s, actions[..k]).value, actions[k..]) == Run(s, actions)
    decreases k
  {
    hide Next;
    if k == 0 {
      assert actions[0..] == actions;
    } else {
      assert actions[..k][1..] == actions[1..][..k - 1] && actions[1..][k - 1..] == actions[k..];
      RunHasPrefix(Next(s, actions[0]).value, actions[1..], k - 1);
    }
  }

  /** Four more steps of a run. */
  lemma FourMore(first: seq<Action>, a: Action, b: Action, c: Action, d: Action)
    requires Run(START, first).Some?
    requires var s := Run(START, first).value;
             Next(s, a).Some? && Next(Next(s, a).value, b).Some? && Next(Next(Next(s, a).value, b).value, c).Some?
    ensures var s := Run(START, first).value;
            Run(START, first + [a, b, c, d]) == Next(Next(Next(Next(s, a).value, b).value, c).value, d)
  {
    hide Next;
    RunsFour(Run(START, first).value, a, b, c, d);
    RunAppends(START, first, [a, b, c, d]);
  }

  /** The first job is taken before its argument is stored, ... */
  lemma FirstJobTakenEarly() returns (actions: seq<Action>)
    ensures Run(START, actions) == Some(State(Send(4, ForJob), JobAccept, NoCommand, 1, 0, Final, 0, 1, true, 1, 1, 1))
  {
    hide Run;
    var M, W := MainStep(0), WorkerStep(0);
    StartsEmpty();
    FourMore([], M, M, W, W);
    actions := [] + [M, M, W, W];
    assert Run(START, actions) == Some(State(Send(2, ForJob), JobClear, Job, 0, 0, Final, 0, 0, true, 1, 1, 0));
    FourMore(actions, W, W, M, M);
    actions := actions + [W, W, M, M];
  }

  /** ... and ends, ... */
  lemma FirstJobEnds() returns (actions: seq<Action>)
    ensures Run(START, actions) == Some(State(Send(4, ForJob), ReadArg, NoCommand, 1, 0, Final, 1, 0, true, 1, 1, 1))
  {
    hide Run;
    var W := WorkerStep(0);
    actions := FirstJobTakenEarly();
    FourMore(actions, W, W, W, W);
    actions := actions + [W, W, W, W];
    assert Run(START, actions) == Some(State(Send(4, ForJob), Running, NoCommand, 1, 0, Busy, 1, 0, true, 1, 1, 1));
    FourMore(actions, WorkerStep(1), W, W, W);
    actions := actions + [WorkerStep(1), W, W, W];
  }

  /** ... so that its argument stays behind. */
  lemma FirstArgumentStaysBehind() returns (actions: seq<Action>)
    ensures Run(START, actions) == Some(State(Polled(Final), ReadArg, NoCommand, 1, 0, Final, 0, 1, true, 1, 1, 1))
  {
    hide Run;
    var M := MainStep(0);
    actions := FirstJobEnds();
    FourMore(actions, M, M, M, M);
    actions := actions + [M, M, M, M];
  }

  lemma StartsEmpty()
    ensures Run(START, []) == Some(START)
  {
  }

  /** A run in which the second job works on the file of the first one, which has been closed. */
  lemma SecondJobUsesClosedFile() returns (actions: seq<Action>)
    ensures Run(START, actions).Some?
    ensures var s := Run(START, actions).value;
            s.worker == Running && s.taken == 1 && s.jobs == 2 && s.fileOpen && !FileOpen(s, s.taken)
  {
    hide Run;
    var M, W := MainStep(0), WorkerStep(0);
    actions := FirstArgumentStaysBehind();
    FourMore(actions, MainStep(1), M, M, W);
    actions := actions + [MainStep(1), M, M, W];
    assert Run(START, actions) == Some(State(Send(1, ForJob), ReadCommand, NoCommand, 1, 1, Final, 0, 1, true, 2, 1, 1));
    FourMore(actions, M, W, W, W);
    actions := actions + [M, W, W, W];
    assert Run(START, actions) == Some(State(Send(2, ForJob), JobAccept, NoCommand, 0, 1, Final, 0, 1, true, 2, 2, 2));
    FourMore(actions, W, W, W, W);
    actions := actions + [W, W, W, W];
  }

  /** SendWorkerThreadCommand up to its sleep, undisturbed: the command, its argument or NULL, and a wakeup. */
  lemma SendStores(s: State, why: Purpose)
    requires s.main == Send(1, why)
    ensures var M := MainStep(0);
            Run(s, [M, M, M]) == Some(s.(main := Send(4, why), command := if why == ForJob then Job else Stop,
                                         argument := if why == ForJob then s.jobs else 0, workerTokens := s.workerTokens + 1, sent := s.sent + 1))
  {
    RunsThree(s, MainStep(0), MainStep(0), MainStep(0));
  }

  /** The rest of it, once the main thread is woken: it takes the wakeup, and gives one back. */
  lemma SendReturns(s: State, why: Purpose)
    requires s.main == Send(4, why) && 0 < s.mainTokens
    ensures var M := MainStep(0);
            Run(s, [M, M, M]) == Some(s.(main := match why case ForJob => Poll case ForStop => Close case ForQuit => Quit,
                                         mainTokens := s.mainTokens - 1, workerTokens := s.workerTokens + 1))
  {
    RunsThree(s, MainStep(0), MainStep(0), MainStep(0));
  }

  /** The worker's answer to a job: the command and its argument are cleared, the job is accepted, and the main thread is woken. */
  lemma WorkerAccepts(s: State)
    requires s.worker == JobClear
    ensures var W := WorkerStep(0);
            Run(s, [W, W, W, W]) == Some(s.(worker := JobSleep, command := NoCommand, argument := 0, code := Accepted,
                                            mainTokens := s.mainTokens + 1, consumed := s.consumed + 1))
  {
    RunsFour(s, WorkerStep(0), WorkerStep(0), WorkerStep(0), WorkerStep(0));
  }

  /** Its answer to a stop command between jobs, ... */
  lemma WorkerRefuses(s: State)
    requires s.worker == OtherClear
    ensures var W := WorkerStep(0);
            Run(s, [W, W, W, W]) == Some(s.(worker := OtherSleep, command := NoCommand, argument := 0, code := Final,
                                            mainTokens := s.mainTokens + 1, consumed := s.consumed + 1))
  {
    RunsFour(s, WorkerStep(0), WorkerStep(0), WorkerStep(0), WorkerStep(0));
  }

  /** ... and at the end of a job. */
  lemma WorkerAborts(s: State)
    requires s.worker == AbortClear
    ensures var W := WorkerStep(0);
            Run(s, [W, W, W, W]) == Some(s.(worker := JobCode, command := NoCommand, argument := 0, code := Final,
                                            mainTokens := s.mainTokens + 1, consumed := s.consumed + 1))
  {
    RunsFour(s, WorkerStep(0), WorkerStep(0), WorkerStep(0), WorkerStep(0));
  }

  lemma RunsThree(s: State, a: Action, b: Action, c: Action)
    requires Next(s, a).Some? && Next(Next(s, a).value, b).Some?
    ensures Run(s, [a, b, c]) == Next(Next(Next(s, a).value, b).value, c)
  {
    hide Next;
    var t := Next(s, a).value;
    var u := Next(t, b).value;
    assert Run(u, [c]) == Next(u, c);
    assert [a, b, c][1..] == [b, c] && [b, c][1..] == [c];
  }
}
