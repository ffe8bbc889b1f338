/**
  The race between callers that submit jobs, the worker that serves them, and whatever
  ends the worker. Each step is one access to the queue, a flag or a job's event; the
  steps of all threads interleave in any order.
 */
module PublisherHandoff {
  type Job = nat

  const CAPACITY := 32

  /** Where a call of `submit` stands; every call has a job of its own. */
  datatype Caller = Checking | Submitting | Rechecking | Waiting | Returned(success: bool)

  datatype Worker = Top | Getting | Serving(job: Job) | Ending | Draining | Closing | Ended

  datatype Slot = Work(job: Job) | Nobody

  /** `tried` lists the jobs the worker served; `sent` and `done` are the jobs' flags. */
  datatype State = State(
    queue: seq<Slot>, stopped: bool, worker: Worker, callers: map<Job, Caller>,
    done: set<Job>, sent: set<Job>, tried: seq<Job>)

  /**
    `late` stands for a deadline that has passed or an open breaker, `fatal` for a
    `BaseException`. `GiveUp` is a wait that times out, `Idle` an empty queue.
   */
  datatype Step =
    | Enter(job: Job) | Check(job: Job, late: bool) | Submit(job: Job) | Recheck(job: Job)
    | Wake(job: Job) | GiveUp(job: Job)
    | Loop | Get | Idle(fatal: bool) | Finish(ok: bool, fatal: bool) | Halt | Drain | CloseClients
    | Stop | PutNobody

  predicate At(s: State, j: Job, c: Caller) { j in s.callers && s.callers[j] == c }

  predicate Enabled(s: State, step: Step) {
    match step
    case Enter(j) => j !in s.callers
    case Check(j, _) => At(s, j, Checking)
    case Submit(j) => At(s, j, Submitting)
    case Recheck(j) => At(s, j, Rechecking)
    case Wake(j) => At(s, j, Waiting) && j in s.done
    case GiveUp(j) => At(s, j, Waiting)
    case Loop => s.worker == Top
    case Get => s.worker == Getting && s.queue != []
    case Idle(_) => s.worker == Getting
    case Finish(ok, fatal) => s.worker.Serving? && !(ok && fatal)
    case Halt => s.worker == Ending
    case Drain => s.worker == Draining
    case CloseClients => s.worker == Closing
    case Stop => true
    case PutNobody => |s.queue| < CAPACITY
  }

  function Move(s: State, j: Job, c: Caller): State { s.(callers := s.callers[j := c]) }

  function Popped(s: State): State
    requires s.queue != []
  {
    s.(queue := s.queue[1..])
  }

  function CallerStep(s: State, step: Step): State
    requires Enabled(s, step)
  {
    match step
    case Enter(j) => Move(s, j, Checking)
    case Check(j, late) => Move(s, j, if s.stopped || late then Returned(false) else Submitting)
    case Submit(j) =>
      if |s.queue| == CAPACITY then Move(s, j, Returned(false))
      else Move(s, j, Rechecking).(queue := s.queue + [Work(j)])
    case Recheck(j) => Move(s, j, if s.stopped then Returned(false) else Waiting)
    case Wake(j) => Move(s, j, Returned(j in s.sent))
    case GiveUp(j) => Move(s, j, Returned(false))
    case _ => s
  }

  function WorkerStep(s: State, step: Step): State
    requires Enabled(s, step)
  {
    match step
    case Loop => s.(worker := if s.stopped then Ending else Getting)
    case Get =>
      if s.queue[0].Work? then Popped(s).(worker := Serving(s.queue[0].job), tried := s.tried + [s.queue[0].job])
      else Popped(s).(worker := Ending)
    case Idle(fatal) => s.(worker := if fatal then Ending else Top)
    case Finish(ok, fatal) =>
      s.(worker := if fatal then Ending else Top,
         done := s.done + {s.worker.job},
         sent := if ok then s.sent + {s.worker.job} else s.sent)
    case Halt => s.(worker := Draining, stopped := true)
    case Drain =>
      if s.queue == [] then s.(worker := Closing)
      else if s.queue[0].Work? then Popped(s).(done := s.done + {s.queue[0].job})
      else Popped(s)
    case CloseClients => s.(worker := Ended)
    case Stop => s.(stopped := true)
    case PutNobody => s.(queue := s.queue + [Nobody])
    case _ => s
  }

  predicate OfCaller(step: Step) {
    step.Enter? || step.Check? || step.Submit? || step.Recheck? || step.Wake? || step.GiveUp?
  }

  function Do(s: State, step: Step): State
    requires Enabled(s, step)
  {
    if OfCaller(step) then CallerStep(s, step) else WorkerStep(s, step)
  }

  function Initial(): State { State([], false, Top, map[], {}, {}, []) }

  /** A run: every step is enabled where it is taken. */
  ghost predicate Run(states: seq<State>, steps: seq<Step>) {
    && |states| == |steps| + 1 && states[0] == Initial()
    && forall i | 0 <= i < |steps| :: StepAt(states[i], steps[i], states[i + 1])
  }

  ghost predicate StepAt(s: State, step: Step, t: State) {
    Enabled(s, step) && t == Do(s, step)
  }

  // ---------------------------------------------------------------------------
  // What every step keeps
  // ---------------------------------------------------------------------------

  predicate Handed(s: State, j: Job) {
    j in s.callers && s.callers[j] != Checking && s.callers[j] != Submitting
  }

  predicate InHand(s: State, j: Job) {
    j in s.done || Work(j) in s.queue || s.worker == Serving(j)
  }

  /** A queued job is queued once, and neither served nor finished. */
  ghost predicate QueueSound(s: State) {
    && |s.queue| <= CAPACITY
    && (forall i, k | 0 <= i < k < |s.queue| && s.queue[i].Work? :: s.queue[i] != s.queue[k])
    && (forall i | 0 <= i < |s.queue| && s.queue[i].Work? ::
          Handed(s, s.queue[i].job) && s.queue[i].job !in s.done && s.worker != Serving(s.queue[i].job))
  }

  ghost predicate WorkerSound(s: State) {
    && (s.worker.Serving? ==> Handed(s, s.worker.job) && s.worker.job !in s.done)
    && (s.worker.Draining? || s.worker.Closing? || s.worker.Ended? ==> s.stopped)
    && (forall j | j in s.done :: Handed(s, j))
    && s.sent <= s.done
  }

  ghost predicate CallersSound(s: State) {
    forall j | j in s.callers ::
      match s.callers[j]
      case Rechecking => InHand(s, j)
      case Waiting => InHand(s, j) && (s.worker.Closing? || s.worker.Ended? ==> j in s.done)
      case Returned(success) => success ==> j in s.sent
      case _ => true
  }

  /** A job is served at most once. */
  ghost predicate TriedSound(s: State) {
    && (forall i, k | 0 <= i < k < |s.tried| :: s.tried[i] != s.tried[k])
    && (forall i | 0 <= i < |s.tried| :: s.tried[i] in s.done || s.worker == Serving(s.tried[i]))
    && (forall j | j in s.sent :: j in s.tried)
    && (s.worker.Serving? ==> s.worker.job in s.tried)
  }

  ghost predicate Sound(s: State) {
    QueueSound(s) && WorkerSound(s) && CallersSound(s) && TriedSound(s)
  }

  lemma AppendKeeps(queue: seq<Slot>, slot: Slot)
    ensures forall x | x in queue :: x in queue + [slot]
    ensures slot in queue + [slot]
  {
    forall x | x in queue ensures x in queue + [slot] {
      var i :| 0 <= i < |queue| && queue[i] == x;
      assert (queue + [slot])[i] == x;
    }
    assert (queue + [slot])[|queue|] == slot;
  }

  lemma CallerKeepsCallers(s: State, step: Step)
    requires Sound(s) && Enabled(s, step) && OfCaller(step)
    ensures CallersSound(Do(s, step))
  {
    if step.Submit? {
      AppendKeeps(s.queue, Work(step.job));
    }
  }

  lemma CallerKeepsQueue(s: State, step: Step)
    requires Sound(s) && Enabled(s, step) && OfCaller(step)
    ensures QueueSound(Do(s, step))
  {
    hide CallersSound, TriedSound;
  }

  lemma CallerKeepsRest(s: State, step: Step)
    requires Sound(s) && Enabled(s, step) && OfCaller(step)
    ensures WorkerSound(Do(s, step)) && TriedSound(Do(s, step))
  {
    hide CallersSound;
  }

  lemma CallerStepKeeps(s: State, step: Step)
    requires Sound(s) && Enabled(s, step) && OfCaller(step)
    ensures Sound(Do(s, step))
  {
    hide CallersSound, QueueSound, WorkerSound, TriedSound;
    CallerKeepsCallers(s, step);
    CallerKeepsQueue(s, step);
    CallerKeepsRest(s, step);
  }

  lemma WorkerKeepsCallers(s: State, step: Step)
    requires Sound(s) && Enabled(s, step) && !OfCaller(step)
    ensures CallersSound(Do(s, step))
  {
    hide TriedSound;
    if step == PutNobody {
      AppendKeeps(s.queue, Nobody);
    }
  }

  lemma WorkerKeepsQueue(s: State, step: Step)
    requires Sound(s) && Enabled(s, step) && !OfCaller(step)
    ensures QueueSound(Do(s, step))
  {
    hide CallersSound, TriedSound;
  }

  lemma WorkerKeepsRest(s: State, step: Step)
    requires Sound(s) && Enabled(s, step) && !OfCaller(step)
    ensures WorkerSound(Do(s, step)) && TriedSound(Do(s, step))
  {
    hide CallersSound;
  }

  lemma WorkerStepKeeps(s: State, step: Step)
    requires Sound(s) && Enabled(s, step) && !OfCaller(step)
    ensures Sound(Do(s, step))
  {
    hide CallersSound, QueueSound, WorkerSound, TriedSound;
    WorkerKeepsCallers(s, step);
    WorkerKeepsQueue(s, step);
    WorkerKeepsRest(s, step);
  }

  lemma {:induction false} RunsAreSound(states: seq<State>, steps: seq<Step>, n: nat)
    requires Run(states, steps) && n <= |steps|
    ensures Sound(states[n])
  {
    if n > 0 {
      RunsAreSound(states, steps, n - 1);
      assert StepAt(states[n - 1], steps[n - 1], states[n]);
      if OfCaller(steps[n - 1]) {
        CallerStepKeeps(states[n - 1], steps[n - 1]);
      } else {
        WorkerStepKeeps(states[n - 1], steps[n - 1]);
      }
    }
  }

  // ---------------------------------------------------------------------------
  // What follows for every run
  // ---------------------------------------------------------------------------

  predicate Over(s: State) { s.worker.Closing? || s.worker.Ended? }

  predicate HasReturned(s: State, j: Job) { j in s.callers && s.callers[j].Returned? }

  predicate IsOf(step: Step, j: Job) { OfCaller(step) && step.job == j }

  /** How often caller `j` moves in the steps from `n` up to `m`. */
  function OwnSteps(steps: seq<Step>, n: nat, m: nat, j: Job): nat
    requires n <= m <= |steps|
  {
    if n == m then 0 else OwnSteps(steps, n, m - 1, j) + if IsOf(steps[m - 1], j) then 1 else 0
  }

  /** How often a caller still moves once the worker has released the queue. */
  function MovesLeft(c: Caller): nat {
    match c
    case Submitting => 2
    case Returned(_) => 0
    case _ => 1
  }

  /** The caller's next step that is not a time-out. */
  function NextMove(s: State, j: Job): Step
    requires j in s.callers && !s.callers[j].Returned?
  {
    match s.callers[j]
    case Checking => Check(j, false)
    case Submitting => Submit(j)
    case Rechecking => Recheck(j)
    case Waiting => Wake(j)
  }

  lemma OverStays(s: State, step: Step, j: Job)
    requires Sound(s) && Enabled(s, step) && Over(s) && j in s.callers
    ensures Over(Do(s, step)) && j in Do(s, step).callers
    ensures MovesLeft(Do(s, step).callers[j]) + (if IsOf(step, j) then 1 else 0) <= MovesLeft(s.callers[j])
  {
    hide CallersSound, QueueSound, TriedSound;
  }

  lemma NextMoveIsEnabled(s: State, j: Job)
    requires Sound(s) && Over(s) && j in s.callers && !HasReturned(s, j)
    ensures Enabled(s, NextMove(s, j))
  {
    hide QueueSound, TriedSound, WorkerSound;
  }

  /**
    Once the worker has released the queue, nobody waits on a job that nobody will
    finish. Whatever the other threads do in between, a caller moves at most twice more,
    and until it has returned it can move without waiting for a time-out.
   */
  lemma {:induction false} NobodyIsStranded(states: seq<State>, steps: seq<Step>, n: nat, m: nat, j: Job)
    requires Run(states, steps) && n <= m <= |steps| && Over(states[n]) && j in states[n].callers
    ensures Over(states[m]) && j in states[m].callers
    ensures OwnSteps(steps, n, m, j) + MovesLeft(states[m].callers[j]) <= MovesLeft(states[n].callers[j]) <= 2
    ensures !HasReturned(states[m], j) ==> Enabled(states[m], NextMove(states[m], j))
    decreases m
  {
    RunsAreSound(states, steps, m);
    if n < m {
      NobodyIsStranded(states, steps, n, m - 1, j);
      RunsAreSound(states, steps, m - 1);
      assert StepAt(states[m - 1], steps[m - 1], states[m]);
      OverStays(states[m - 1], steps[m - 1], j);
    }
    if !HasReturned(states[m], j) {
      NextMoveIsEnabled(states[m], j);
    }
  }

  /** A call that reports success had its job served and sent, exactly once. */
  lemma SuccessMeansSentOnce(states: seq<State>, steps: seq<Step>, n: nat, j: Job)
    requires Run(states, steps) && n <= |steps| && At(states[n], j, Returned(true))
    ensures j in states[n].sent && j in states[n].tried
    ensures forall i, k | 0 <= i < k < |states[n].tried| :: states[n].tried[i] != states[n].tried[k]
  {
    RunsAreSound(states, steps, n);
  }

  /** The steps the worker still needs after the stop, while nobody adds to the queue. */
  function Left(s: State): nat {
    match s.worker
    case Getting => |s.queue| + 6
    case Serving(_) => |s.queue| + 5
    case Top => |s.queue| + 4
    case Ending => |s.queue| + 3
    case Draining => |s.queue| + 2
    case Closing => 1
    case Ended => 0
  }

  /** A step that the worker can take; waiting for a job ends by a job or by its time limit. */
  function WorkersStep(s: State): (step: Step)
    requires !s.worker.Ended?
    ensures Enabled(s, step) && OfWorker(step)
  {
    match s.worker
    case Getting => if s.queue != [] then Get else Idle(false)
    case Serving(_) => Finish(false, false)
    case Top => Loop
    case Ending => Halt
    case Draining => Drain
    case Closing => CloseClients
  }

  /** The callers that had passed their check before the stop and may still queue a job. */
  function Submitters(s: State): set<Job> { set j | j in s.callers && s.callers[j] == Submitting }

  predicate IsNobody(step: Step) { step == PutNobody }

  predicate OfWorker(step: Step) { !OfCaller(step) && step != Stop && step != PutNobody }

  function Steps(steps: seq<Step>, n: nat, m: nat, counted: Step -> bool): nat
    requires n <= m <= |steps|
  {
    if n == m then 0 else Steps(steps, n, m - 1, counted) + if counted(steps[m - 1]) then 1 else 0
  }

  /** No caller gets past its check after the stop, so their number only falls. */
  lemma SubmittersFall(s: State, step: Step)
    requires s.stopped && Enabled(s, step)
    ensures |Submitters(Do(s, step))| <= |Submitters(s)|
    ensures step.Submit? ==> |Submitters(Do(s, step))| < |Submitters(s)|
  {
    if step.Submit? {
      assert step.job in Submitters(s) && Submitters(Do(s, step)) == Submitters(s) - {step.job};
    } else {
      assert Submitters(Do(s, step)) == Submitters(s);
    }
  }

  lemma StoppedStep(s: State, step: Step)
    requires s.stopped && Enabled(s, step)
    ensures Do(s, step).stopped
    ensures Left(Do(s, step)) + (if OfWorker(step) then 1 else 0)
            <= Left(s) + if step.Submit? || step == PutNobody then 1 else 0
  {
  }

  /**
    The worker ends after the stop wherever it stands and whatever callers do: it takes no
    more steps than the queue was long, six, one for every caller that had passed its check
    before the stop, and one for every `None` put since. Until then it can take a step.
   */
  lemma {:induction false} EndingEnds(states: seq<State>, steps: seq<Step>, n: nat, m: nat)
    requires Run(states, steps) && n <= m <= |steps| && states[n].stopped
    ensures states[m].stopped
    ensures Steps(steps, n, m, OfWorker) + Left(states[m]) + |Submitters(states[m])|
            <= Left(states[n]) + |Submitters(states[n])| + Steps(steps, n, m, IsNobody)
    ensures Left(states[n]) <= |states[n].queue| + 6
    ensures !states[m].worker.Ended? ==> Enabled(states[m], WorkersStep(states[m])) && OfWorker(WorkersStep(states[m]))
    decreases m
  {
    assert Left(states[n]) <= |states[n].queue| + 6;
    hide Do, Left, Submitters, Enabled, OfWorker;
    if n < m {
      EndingEnds(states, steps, n, m - 1);
      assert StepAt(states[m - 1], steps[m - 1], states[m]);
      StoppedStep(states[m - 1], steps[m - 1]);
      SubmittersFall(states[m - 1], steps[m - 1]);
    }
  }

  // ---------------------------------------------------------------------------
  // Why a call fails, and that it need not
  // ---------------------------------------------------------------------------

  /**
    The step that makes a call fail: it is late, the worker has stopped, the queue is full,
    the wait times out, or the job was finished without having been sent.
   */
  predicate TurnedAway(s: State, step: Step, j: Job) {
    match step
    case Check(i, late) => i == j && (late || s.stopped)
    case Submit(i) => i == j && |s.queue| == CAPACITY
    case Recheck(i) => i == j && s.stopped
    case GiveUp(i) => i == j
    case Wake(i) => i == j && j !in s.sent
    case _ => false
  }

  lemma FailsByOwnStep(s: State, step: Step, j: Job)
    requires Enabled(s, step)
    ensures At(Do(s, step), j, Returned(false)) <==> At(s, j, Returned(false)) || TurnedAway(s, step, j)
  {
  }

  /** A call has failed if and only if it was turned away at one of its own steps. */
  lemma {:induction false} FailsIffTurnedAway(states: seq<State>, steps: seq<Step>, n: nat, j: Job)
    requires Run(states, steps) && n <= |steps|
    ensures At(states[n], j, Returned(false)) <==> exists k :: 0 <= k < n && TurnedAway(states[k], steps[k], j)
  {
    hide Do, TurnedAway;
    if n > 0 {
      FailsIffTurnedAway(states, steps, n - 1, j);
      assert StepAt(states[n - 1], steps[n - 1], states[n]);
      FailsByOwnStep(states[n - 1], steps[n - 1], j);
    }
  }

  // ---------------------------------------------------------------------------
  // In order, and none lost
  // ---------------------------------------------------------------------------

  function JobsIn(queue: seq<Slot>): seq<Job> {
    if queue == [] then []
    else (if queue[0].Work? then [queue[0].job] else []) + JobsIn(queue[1..])
  }

  lemma {:induction false} JobsInConcat(a: seq<Slot>, b: seq<Slot>)
    ensures JobsIn(a + b) == JobsIn(a) + JobsIn(b)
  {
    if a == [] {
      assert a + b == b;
    } else {
      assert (a + b)[0] == a[0] && (a + b)[1..] == a[1..] + b;
      JobsInConcat(a[1..], b);
    }
  }

  /** The jobs that were put into the queue up to step `n`, in that order. */
  function Queued(states: seq<State>, steps: seq<Step>, n: nat): seq<Job>
    requires n <= |steps| < |states|
  {
    if n == 0 then []
    else
      Queued(states, steps, n - 1)
      + if steps[n - 1].Submit? && |states[n - 1].queue| < CAPACITY then [steps[n - 1].job] else []
  }

  /** The jobs that the ending worker finished unserved. */
  function Dropped(states: seq<State>, steps: seq<Step>, n: nat): seq<Job>
    requires n <= |steps| < |states|
  {
    if n == 0 then []
    else
      Dropped(states, steps, n - 1)
      + var queue := states[n - 1].queue;
        if steps[n - 1].Drain? && queue != [] && queue[0].Work? then [queue[0].job] else []
  }

  predicate Releases(s: State) { s.worker.Draining? || Over(s) }

  /** A step takes at most the first slot of the queue, or adds one. */
  lemma QueueStep(s: State, step: Step)
    requires Sound(s) && Enabled(s, step)
    ensures var q, t := s.queue, Do(s, step);
            match step
            case Submit(j) => t.queue == (if |q| < CAPACITY then q + [Work(j)] else q) && t.tried == s.tried
            case PutNobody => t.queue == q + [Nobody] && t.tried == s.tried
            case Get => q != [] && t.queue == q[1..] && t.tried == s.tried + JobsIn([q[0]]) && !Releases(s)
            case Drain => t.queue == (if q == [] then q else q[1..]) && t.tried == s.tried && Releases(t)
            case _ => t.queue == q && t.tried == s.tried
    ensures Releases(s) ==> Releases(Do(s, step))
  {
    hide CallersSound, WorkerSound, TriedSound;
    if step.Get? {
      assert [s.queue[0]][1..] == [];
    }
  }

  /** The jobs in a queue are those of its first slot and those of the others. */
  lemma JobsSplit(queue: seq<Slot>)
    requires queue != []
    ensures JobsIn(queue) == JobsIn([queue[0]]) + JobsIn(queue[1..])
    ensures JobsIn([queue[0]]) == if queue[0].Work? then [queue[0].job] else []
  {
    assert [queue[0]][1..] == [];
  }

  lemma Regroup(tried: seq<Job>, dropped: seq<Job>, first: seq<Job>, rest: seq<Job>)
    ensures tried + [] + (first + rest) + [] == (tried + first) + ([] + []) + rest
    ensures tried + dropped + (first + rest) + [] == tried + (dropped + first) + rest
    ensures tried + dropped + first + rest == tried + (dropped + []) + (first + rest)
    ensures tried + dropped + first + [] == tried + (dropped + []) + first
  {
  }

  lemma OrderStep(s: State, step: Step, dropped: seq<Job>)
    requires Sound(s) && Enabled(s, step) && (dropped != [] ==> Releases(s))
    ensures var put := if step.Submit? && |s.queue| < CAPACITY then [step.job] else [];
            var drop := if step.Drain? && s.queue != [] && s.queue[0].Work? then [s.queue[0].job] else [];
            && s.tried + dropped + JobsIn(s.queue) + put
               == Do(s, step).tried + (dropped + drop) + JobsIn(Do(s, step).queue)
            && (dropped + drop != [] ==> Releases(Do(s, step)))
  {
    hide Do, Sound, Enabled, JobsIn, Releases;
    QueueStep(s, step);
    if step.Submit? {
      JobsInConcat(s.queue, [Work(step.job)]);
      JobOf(Work(step.job));
      Regroup(s.tried, dropped, JobsIn(s.queue), JobsIn([Work(step.job)]));
    } else if step == PutNobody {
      JobsInConcat(s.queue, [Nobody]);
      JobOf(Nobody);
      Regroup(s.tried, dropped, JobsIn(s.queue), []);
    } else if s.queue != [] && (step.Get? || step.Drain?) {
      JobsSplit(s.queue);
      Regroup(s.tried, dropped, JobsIn([s.queue[0]]), JobsIn(s.queue[1..]));
    }
    Regroup(s.tried, dropped, JobsIn(s.queue), []);
  }

  lemma JobOf(slot: Slot)
    ensures JobsIn([slot]) == if slot.Work? then [slot.job] else []
  {
    assert [slot][1..] == [];
  }

  lemma NothingQueued()
    ensures JobsIn([]) == []
  {
  }

  /**
    Jobs are served in the order in which they were put, and none is lost: what was put is
    what was tried, then what the ending worker dropped, then what is still in the queue.
   */
  lemma {:induction false} ServedInOrder(states: seq<State>, steps: seq<Step>, n: nat)
    requires Run(states, steps) && n <= |steps|
    ensures Queued(states, steps, n) == states[n].tried + Dropped(states, steps, n) + JobsIn(states[n].queue)
    ensures Dropped(states, steps, n) != [] ==> Releases(states[n])
  {
    hide Do, Enabled, JobsIn, Sound;
    if n > 0 {
      ServedInOrder(states, steps, n - 1);
      RunsAreSound(states, steps, n - 1);
      assert StepAt(states[n - 1], steps[n - 1], states[n]);
      OrderStep(states[n - 1], steps[n - 1], Dropped(states, steps, n - 1));
    } else {
      NothingQueued();
    }
  }

  // ---------------------------------------------------------------------------
  // An undisturbed call
  // ---------------------------------------------------------------------------

  /** A run goes on by an enabled step. */
  lemma Extend(states: seq<State>, steps: seq<Step>, step: Step) returns (states': seq<State>, steps': seq<Step>)
    requires Run(states, steps) && Enabled(states[|steps|], step)
    ensures Run(states', steps') && steps' == steps + [step] && states <= states'
    ensures states'[|steps'|] == Do(states[|steps|], step)
  {
    states', steps' := states + [Do(states[|steps|], step)], steps + [step];
    forall i | 0 <= i < |steps'| ensures StepAt(states'[i], steps'[i], states'[i + 1]) {
      assert i < |steps| ==> StepAt(states[i], steps[i], states[i + 1]);
    }
  }

  /** The steps of a call that is on time, and of a worker that serves it at once. */
  function CallAndService(j: Job): seq<Step> {
    [Enter(j), Check(j, false), Submit(j), Recheck(j), Loop, Get, Finish(true, false), Wake(j)]
  }

  lemma {:induction false} ExtendAll(states: seq<State>, steps: seq<Step>, more: seq<Step>, path: seq<State>)
    returns (states': seq<State>)
    requires Run(states, steps) && |path| == |more| + 1 && path[0] == states[|steps|]
    requires forall i | 0 <= i < |more| :: StepAt(path[i], more[i], path[i + 1])
    ensures Run(states', steps + more) && states <= states' && states'[|steps + more|] == path[|more|]
    decreases |more|
  {
    if more == [] {
      states' := states;
      assert steps + more == steps;
    } else {
      assert StepAt(path[0], more[0], path[1]);
      ghost var s1, t1 := Extend(states, steps, more[0]);
      assert forall i | 0 <= i < |more[1..]| :: StepAt(path[1..][i], more[1..][i], path[1..][i + 1]) by {
        forall i | 0 <= i < |more[1..]| ensures StepAt(path[1..][i], more[1..][i], path[1..][i + 1]) {
          assert StepAt(path[i + 1], more[i + 1], path[i + 2]);
        }
      }
      states' := ExtendAll(s1, t1, more[1..], path[1..]);
      assert t1 + more[1..] == steps + more;
    }
  }

  /** Up to the wait, the call puts its job into the queue. */
  lemma CallPath(s: State, j: Job) returns (path: seq<State>)
    requires !s.stopped && s.queue == [] && j !in s.callers
    ensures |path| == 5 && path[0] == s
    ensures forall i | 0 <= i < 4 :: StepAt(path[i], CallAndService(j)[i], path[i + 1])
    ensures path[4] == s.(queue := [Work(j)], callers := s.callers[j := Waiting])
  {
    var s1 := Move(s, j, Checking);
    var s2 := Move(s, j, Submitting);
    var s3 := Move(s, j, Rechecking).(queue := [Work(j)]);
    path := [s, s1, s2, s3, Move(s, j, Waiting).(queue := [Work(j)])];
    assert s1.callers[j := Submitting] == s2.callers;
    assert s2.callers[j := Rechecking] == s3.callers;
    assert s3.callers[j := Waiting] == path[4].callers;
  }

  /** The worker serves the job, and the call wakes. */
  lemma ServicePath(s: State, j: Job) returns (path: seq<State>)
    requires !s.stopped && s.worker == Top && s.queue == [Work(j)] && At(s, j, Waiting)
    ensures |path| == 5 && path[0] == s
    ensures forall i | 0 <= i < 4 :: StepAt(path[i], CallAndService(j)[i + 4], path[i + 1])
    ensures At(path[4], j, Returned(true)) && path[4].tried == s.tried + [j]
  {
    var s1 := s.(worker := Getting);
    var s2 := s.(worker := Serving(j), queue := [], tried := s.tried + [j]);
    var s3 := s2.(worker := Top, done := s.done + {j}, sent := s.sent + {j});
    path := [s, s1, s2, s3, Move(s3, j, Returned(true))];
  }

  lemma Path(s: State, j: Job) returns (path: seq<State>)
    requires !s.stopped && s.worker == Top && s.queue == [] && j !in s.callers
    ensures |path| == 9 && path[0] == s
    ensures forall i | 0 <= i < 8 :: StepAt(path[i], CallAndService(j)[i], path[i + 1])
    ensures At(path[8], j, Returned(true)) && path[8].tried == s.tried + [j]
  {
    var call := CallPath(s, j);
    var service := ServicePath(call[4], j);
    hide StepAt;
    path := call + service[1..];
    forall i | 0 <= i < 8 ensures StepAt(path[i], CallAndService(j)[i], path[i + 1]) {
      if i >= 4 {
        assert StepAt(service[i - 4], CallAndService(j)[i - 4 + 4], service[i - 3]);
      }
    }
  }

  /**
    From every state that a run can reach in which the worker is free, has not been stopped
    and has nothing to do, a call that is on time succeeds, by eight undisturbed steps.
   */
  lemma UndisturbedCall(states: seq<State>, steps: seq<Step>, j: Job) returns (states': seq<State>)
    requires Run(states, steps) && j !in states[|steps|].callers
    requires var s := states[|steps|]; !s.stopped && s.worker == Top && s.queue == []
    ensures Run(states', steps + CallAndService(j)) && states <= states'
    ensures At(states'[|steps| + 8], j, Returned(true))
    ensures states'[|steps| + 8].tried == states[|steps|].tried + [j]
  {
    var path := Path(states[|steps|], j);
    states' := ExtendAll(states, steps, CallAndService(j), path);
  }
}
