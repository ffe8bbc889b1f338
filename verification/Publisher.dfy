/**
  The publishing worker: one client and one circuit breaker per configuration, kept in a
  table that only the worker changes. The jobs, the readings of the clock and the outcome
  of every call into the client library are inputs.
 */
module Publisher {
  import opened Wrappers

  type Config = string

  const IDLE := 30.0
  const MAX_AGE := 300.0
  const FAILURES := 3
  const COOLDOWN := 5.0

  /** `Fatal` stands for a `BaseException` that is no `Exception`; it ends the worker. */
  datatype Outcome = Done | Failed | Fatal

  /** The readings of the clock, and the outcomes of the calls into the client library, in their order. */
  datatype World = World(clock: nat -> real, outcome: nat -> Outcome) {
    /** The clock is monotonic. */
    ghost predicate Steady() {
      0.0 <= clock(0) && forall i: nat, j: nat | i <= j :: clock(i) <= clock(j)
    }

    /** One of these readings is not before the deadline. */
    ghost predicate LateIn(first: nat, end: nat, deadline: real) {
      exists k: nat :: first <= k < end && deadline <= clock(k)
    }

    /** One of these readings is before `until`. */
    ghost predicate BeforeIn(first: nat, end: nat, until: real) {
      exists k: nat :: first <= k < end && clock(k) < until
    }

    /** One of these calls failed. */
    ghost predicate FailsIn(first: nat, end: nat) {
      exists k: nat :: first <= k < end && outcome(k) != Done
    }

    ghost predicate FatalIn(first: nat, end: nat) {
      exists k: nat :: first <= k < end && outcome(k) == Fatal
    }
  }

  // ---------------------------------------------------------------------------
  // What happened
  // ---------------------------------------------------------------------------

  /** A pipeline begins to execute, an attempt ends, a breaker opens until some time. */
  datatype Event = Sends(config: Config, at: real) | Ends(config: Config, ok: bool) | Opens(config: Config, until: real)

  /** No send begins inside a window that was opened before it. */
  ghost predicate NoSendInWindow(log: seq<Event>) {
    forall i, j | 0 <= i < j < |log| && log[i].Opens? && log[j].Sends? && log[i].config == log[j].config ::
      log[i].until <= log[j].at
  }

  /** Failed attempts on a configuration since its last success. */
  function Streak(log: seq<Event>, config: Config): nat {
    if log == [] then 0
    else
      var last, before := log[|log| - 1], log[..|log| - 1];
      if last.Ends? && last.config == config then if last.ok then 0 else Streak(before, config) + 1
      else Streak(before, config)
  }

  /** Every breaker that opened had seen enough failures in a row. */
  ghost predicate OpensAfterFailures(log: seq<Event>) {
    forall i | 0 <= i < |log| && log[i].Opens? :: FAILURES <= Streak(log[..i], log[i].config)
  }

  lemma StreakMore(log: seq<Event>, e: Event, config: Config)
    ensures Streak(log + [e], config) ==
            if e.Ends? && e.config == config then if e.ok then 0 else Streak(log, config) + 1 else Streak(log, config)
  {
    assert (log + [e])[..|log|] == log;
  }

  lemma OpensMore(log: seq<Event>, e: Event)
    requires OpensAfterFailures(log) && (e.Opens? ==> FAILURES <= Streak(log, e.config))
    ensures OpensAfterFailures(log + [e])
  {
    forall i | 0 <= i < |log| + 1 && (log + [e])[i].Opens?
      ensures FAILURES <= Streak((log + [e])[..i], (log + [e])[i].config)
    {
      assert (log + [e])[..i] == log[..i];
      assert log[..|log|] == log;
    }
  }

  // ---------------------------------------------------------------------------
  // The worker
  // ---------------------------------------------------------------------------

  class Target {
    var client: Option<nat>
    var born: real
    var used: real
    var failures: nat
    var openUntil: real

    constructor ()
      ensures client == None && born == used == openUntil == 0.0 && failures == 0
    {
      client, born, used, failures, openUntil := None, 0.0, 0.0, 0, 0.0;
    }
  }

  datatype Input = Job(config: Config, deadline: real) | NoJob

  // ---------------------------------------------------------------------------
  // What becomes of a job
  // ---------------------------------------------------------------------------

  /** How often the clock was read and the library called when the worker turns to an input. */
  datatype Mark = Mark(readings: nat, calls: nat)

  /** Sent in time, by a call that returned. */
  ghost predicate Sent(w: World, part: seq<Event>, config: Config, deadline: real, from: Mark, to: Mark) {
    && |part| == 2 && part[0].Sends? && part[0].config == config && part[1] == Ends(config, true)
    && part[0].at < deadline && (exists k: nat :: from.readings <= k < to.readings && part[0].at == w.clock(k))
    && from.calls < to.calls && w.outcome(to.calls - 1) == Done
  }

  /** A failed attempt: perhaps a send, its end, and perhaps the opening of the breaker. */
  predicate FailedPart(part: seq<Event>, config: Config) {
    var n := if part != [] && part[0].Sends? then 1 else 0;
    && n < |part| <= n + 2 && part[n] == Ends(config, false)
    && (n == 1 ==> part[0].config == config)
    && (|part| == n + 2 ==> part[n + 1].Opens? && part[n + 1].config == config)
  }

  /** A window of the configuration that was opened before is still open at one of these readings. */
  ghost predicate OpenIn(w: World, log: seq<Event>, config: Config, from: Mark, to: Mark) {
    exists i :: 0 <= i < |log| && log[i].Opens? && log[i].config == config && w.BeforeIn(from.readings, to.readings, log[i].until)
  }

  /**
    A job is sent, or its attempt has failed because a call failed or it was late, or it
    was left out because it was late or its window was open; `log` is what was before.
   */
  ghost predicate Accounted(w: World, input: Input, log: seq<Event>, part: seq<Event>, from: Mark, to: Mark) {
    match input
    case NoJob => part == []
    case Job(config, deadline) =>
      || Sent(w, part, config, deadline, from, to)
      || (FailedPart(part, config)
          && (w.FailsIn(from.calls, to.calls) || w.LateIn(from.readings, to.readings, deadline)))
      || (part == [] && (w.LateIn(from.readings, to.readings, deadline) || OpenIn(w, log, config, from, to)))
  }

  /** The parts of the log, one after the other. */
  function Joined(parts: seq<seq<Event>>): seq<Event> {
    if parts == [] then [] else Joined(parts[..|parts| - 1]) + parts[|parts| - 1]
  }

  /** Each input has its own part of the log, in order. */
  ghost predicate AllAccounted(w: World, inputs: seq<Input>, parts: seq<seq<Event>>, marks: seq<Mark>) {
    && |parts| <= |inputs| && |marks| == |parts| + 1
    && forall k: nat | k < |parts| :: Accounted(w, inputs[k], Joined(parts[..k]), parts[k], marks[k], marks[k + 1])
  }

  lemma AccountedMore(w: World, inputs: seq<Input>, parts: seq<seq<Event>>, marks: seq<Mark>, part: seq<Event>, to: Mark)
    requires AllAccounted(w, inputs, parts, marks) && |parts| < |inputs|
    requires Accounted(w, inputs[|parts|], Joined(parts), part, marks[|parts|], to)
    ensures AllAccounted(w, inputs, parts + [part], marks + [to])
    ensures Joined(parts + [part]) == Joined(parts) + part
  {
    hide Accounted, Joined;
    assert (parts + [part])[..|parts|] == parts;
    JoinedMore(parts, part);
    forall k: nat | k < |parts| + 1
      ensures Accounted(w, inputs[k], Joined((parts + [part])[..k]), (parts + [part])[k], (marks + [to])[k], (marks + [to])[k + 1])
    {
      assert k < |parts| ==> (parts + [part])[..k] == parts[..k];
    }
  }

  lemma JoinedMore(parts: seq<seq<Event>>, part: seq<Event>)
    ensures Joined(parts + [part]) == Joined(parts) + part
  {
    assert (parts + [part])[..|parts|] == parts;
  }

  /** A job that is on time, with no window open and no call that fails. */
  ghost predicate Undisturbed(w: World, input: Input, log: seq<Event>, from: Mark, to: Mark) {
    && input.Job? && !w.LateIn(from.readings, to.readings, input.deadline) && !w.FailsIn(from.calls, to.calls)
    && !OpenIn(w, log, input.config, from, to)
  }

  lemma UndisturbedJobsAreSent(w: World, inputs: seq<Input>, parts: seq<seq<Event>>, marks: seq<Mark>)
    requires AllAccounted(w, inputs, parts, marks)
    ensures forall k: nat | k < |parts| && Undisturbed(w, inputs[k], Joined(parts[..k]), marks[k], marks[k + 1]) ::
              Sent(w, parts[k], inputs[k].config, inputs[k].deadline, marks[k], marks[k + 1])
  {
    forall k: nat | k < |parts| && Undisturbed(w, inputs[k], Joined(parts[..k]), marks[k], marks[k + 1])
      ensures Sent(w, parts[k], inputs[k].config, inputs[k].deadline, marks[k], marks[k + 1])
    {
      assert Accounted(w, inputs[k], Joined(parts[..k]), parts[k], marks[k], marks[k + 1]);
    }
  }

  class Worker {
    var targets: map<Config, Target>
    var swept: real
    /** The last reading of the clock. */
    var now: real

    const world: World
    /** How many readings and library calls there have been. */
    var readings: nat
    var calls: nat

    /** Clients are numbered as they are opened; `closed` are those whose `close` was called. */
    var clients: nat
    ghost var closed: set<nat>
    /** The configuration whose entry holds a client. */
    ghost var holder: map<nat, Config>
    ghost var log: seq<Event>

    ghost predicate OneEntryEach()
      reads this`targets
    {
      forall c, d | c in targets && d in targets && c != d :: targets[c] != targets[d]
    }

    /** A client is held by exactly one entry, or it is closed. */
    ghost predicate Owned()
      reads this`targets, this`clients, this`closed, this`holder, targets.Values`client
    {
      && (forall i: nat | i < clients :: i in holder <==> i !in closed)
      && (forall i | i in holder :: i < clients && holder[i] in targets && targets[holder[i]].client == Some(i))
      && (forall i | i in closed :: i < clients)
      && (forall c | c in targets && targets[c].client.Some? ::
            targets[c].client.value in holder && holder[targets[c].client.value] == c)
    }

    /** A window that is not over is still on record in the table. */
    ghost predicate WindowsKept()
      reads this`targets, this`log, this`now, targets.Values`openUntil
    {
      forall i | 0 <= i < |log| && log[i].Opens? ::
        log[i].until <= now || (log[i].config in targets && log[i].until <= targets[log[i].config].openUntil)
    }

    ghost predicate Counted()
      reads this`targets, this`log, targets.Values`failures
    {
      forall c | c in targets :: targets[c].failures <= Streak(log, c)
    }

    /** A window on record in the table was opened. */
    ghost predicate WindowsOpened()
      reads this`targets, this`log, targets.Values`openUntil
    {
      forall c | c in targets :: targets[c].openUntil == 0.0 || Opens(c, targets[c].openUntil) in log
    }

    ghost predicate Clocked()
      reads this`now, this`readings
    {
      0 < readings && now == world.clock(readings - 1) && world.Steady()
    }

    ghost predicate Valid()
      reads this, targets.Values
    {
      && Clocked()
      && OneEntryEach() && Owned() && WindowsKept() && Counted() && WindowsOpened()
      && NoSendInWindow(log) && OpensAfterFailures(log)
    }

    function At(): Mark
      reads this`readings, this`calls
    {
      Mark(readings, calls)
    }

    /** Time has passed: readings and calls are only added. */
    twostate predicate Later()
      reads this`readings, this`calls, this`now
    {
      old(readings) <= readings && old(calls) <= calls && old(now) <= now
    }

    constructor (world: World)
      requires world.Steady()
      ensures Valid() && targets == map[] && clients == 0 && log == [] && this.world == world
      ensures readings == 1 && calls == 0
    {
      this.world := world;
      targets, swept, now := map[], world.clock(0), world.clock(0);
      readings, calls := 1, 0;
      clients, closed, holder, log := 0, {}, map[], [];
    }

    /** `time.monotonic()`. */
    method Read() returns (t: real)
      requires Valid()
      modifies this`now, this`readings
      ensures Valid() && old(now) <= now && t == now == world.clock(old(readings)) && readings == old(readings) + 1
    {
      t := world.clock(readings);
      now, readings := t, readings + 1;
    }

    /** A call into the client library. */
    method Call() returns (o: Outcome)
      modifies this`calls
      ensures o == world.outcome(old(calls)) && calls == old(calls) + 1
    {
      o := world.outcome(calls);
      calls := calls + 1;
    }

    /** `client.close()`; a client is never closed twice. */
    method Close(client: nat) returns (o: Outcome)
      requires client !in closed
      modifies this`closed, this`calls
      ensures closed == old(closed) + {client}
      ensures o == world.outcome(old(calls)) && calls == old(calls) + 1
    {
      closed := closed + {client};
      o := Call();
    }

    /** `_discard`: only a fatal outcome of the close gets out. */
    method Discard(target: Target, ghost config: Config) returns (fatal: bool)
      requires Valid() && config in targets && targets[config] == target
      modifies target`client, this`closed, this`holder, this`calls
      ensures Valid() && target.client == None && old(calls) <= calls
      ensures closed == old(closed) + (if old(target.client).Some? then {old(target.client).value} else {})
      ensures fatal <==> old(target.client) != None && world.outcome(old(calls)) == Fatal
      ensures calls == old(calls) + if old(target.client) == None then 0 else 1
    {
      hide NoSendInWindow, OpensAfterFailures, WindowsKept, Counted, WindowsOpened, Clocked;
      fatal := false;
      if target.client.Some? {
        var client := target.client.value;
        target.client := None;
        holder := holder - {client};
        var o := Close(client);
        fatal := o == Fatal;
      }
    }

    /** `_expire`: an idle or an old client goes. */
    method Expire(target: Target, t: real, ghost config: Config) returns (fatal: bool)
      requires Valid() && config in targets && targets[config] == target
      modifies target`client, this`closed, this`holder, this`calls
      ensures Valid() && old(calls) <= calls && (fatal ==> world.FatalIn(old(calls), calls))
      ensures target.client == old(target.client) || target.client == None
      ensures var stale := t - target.used > IDLE || t - target.born > MAX_AGE;
              target.client == if stale then None else old(target.client)
      ensures old(target.client) == None ==> !fatal
      ensures closed >= old(closed)
    {
      fatal := false;
      if target.client != None && (t - target.used > IDLE || t - target.born > MAX_AGE) {
        fatal := Discard(target, config);
      }
    }

    lemma CountedMore(e: Event)
      requires Counted() && (e.Ends? && e.ok && e.config in targets ==> targets[e.config].failures == 0)
      ensures forall c | c in targets :: targets[c].failures <= Streak(log + [e], c)
    {
      hide Streak;
      forall c | c in targets ensures targets[c].failures <= Streak(log + [e], c) {
        StreakMore(log, e, c);
      }
    }

    lemma WindowsMore(e: Event)
      requires WindowsKept() && e.config in targets && (e.Opens? ==> e.until <= targets[e.config].openUntil)
      ensures forall i | 0 <= i < |log + [e]| && (log + [e])[i].Opens? ::
                var w := (log + [e])[i];
                w.until <= now || (w.config in targets && w.until <= targets[w.config].openUntil)
    {
    }

    lemma SendsMore(e: Event)
      requires WindowsKept() && NoSendInWindow(log) && e.config in targets
      requires e.Sends? ==> targets[e.config].openUntil <= e.at && now <= e.at
      ensures NoSendInWindow(log + [e])
    {
    }

    lemma OpenedMore(e: Event)
      requires WindowsOpened()
      ensures forall c | c in targets :: targets[c].openUntil == 0.0 || Opens(c, targets[c].openUntil) in log + [e]
    {
    }

    /** Puts an event on record. */
    ghost method Record(e: Event)
      requires Valid() && e.config in targets
      requires e.Sends? ==> targets[e.config].openUntil <= e.at && now <= e.at
      requires e.Ends? && e.ok ==> targets[e.config].failures == 0
      requires e.Opens? ==> e.until <= targets[e.config].openUntil && FAILURES <= targets[e.config].failures
      modifies this`log
      ensures Valid() && log == old(log) + [e]
    {
      hide Streak, OpensAfterFailures, NoSendInWindow, OneEntryEach, Owned, Clocked;
      OpenedMore(e);
      CountedMore(e);
      WindowsMore(e);
      OpensMore(log, e);
      SendsMore(e);
      log := log + [e];
    }

    /** Puts on record that the breaker has been opened. */
    ghost method RecordOpening(target: Target, config: Config)
      requires Clocked() && OneEntryEach() && Owned() && WindowsKept() && Counted()
      requires NoSendInWindow(log) && OpensAfterFailures(log)
      requires config in targets && targets[config] == target && FAILURES <= target.failures
      requires forall c | c in targets && c != config ::
                 targets[c].openUntil == 0.0 || Opens(c, targets[c].openUntil) in log
      modifies this`log
      ensures Valid() && log == old(log) + [Opens(config, target.openUntil)]
    {
      hide Streak, OpensAfterFailures, NoSendInWindow, OneEntryEach, Owned, Clocked;
      var e := Opens(config, target.openUntil);
      CountedMore(e);
      WindowsMore(e);
      OpensMore(log, e);
      SendsMore(e);
      log := log + [e];
      assert e in log;
    }

    lemma OnlyHere(target: Target, config: Config)
      requires OneEntryEach() && config in targets && targets[config] == target
      ensures forall c | c in targets && c != config :: targets[c] != target
    {
    }

    /** The entry takes a new client. */
    method Adopt(target: Target, config: Config, t: real)
      requires Valid() && config in targets && targets[config] == target && target.client == None
      modifies target`client, target`born, this`clients, this`holder
      ensures Valid() && target.client == Some(old(clients))
    {
      hide NoSendInWindow, OpensAfterFailures, WindowsKept, Counted, OneEntryEach, WindowsOpened, Clocked;
      OnlyHere(target, config);
      assert clients !in closed && clients !in holder;
      target.client := Some(clients);
      holder := holder[clients := config];
      clients := clients + 1;
      target.born := t;
    }

    /** `_sync_client`: a new client, if it can be built. */
    method Connect(target: Target, config: Config, t: real) returns (o: Outcome)
      requires Valid() && config in targets && targets[config] == target && target.client == None
      modifies target`client, target`born, this`clients, this`holder, this`calls
      ensures Valid()
      ensures target.client == if o == Done then Some(old(clients)) else None
      ensures o == world.outcome(old(calls)) && calls == old(calls) + 1
    {
      hide NoSendInWindow, OpensAfterFailures, WindowsKept, Counted, OneEntryEach, WindowsOpened, Clocked, Owned;
      o := Call();
      if o == Done {
        Adopt(target, config, t);
      }
    }

    /** The body of the `try` of `_send`: open a client if there is none, then publish in time. */
    method Attempt(target: Target, config: Config, t: real, deadline: real) returns (o: Outcome)
      requires Valid() && config in targets && targets[config] == target && target.openUntil <= now
      modifies target`client, target`born, this`clients, this`holder, this`now, this`readings, this`calls, this`log
      ensures Valid() && Later()
      ensures o == Done ==>
                && target.client.Some? && log == old(log) + [Sends(config, now)] && now < deadline
                && old(readings) < readings && now == world.clock(readings - 1)
                && old(calls) < calls && world.outcome(calls - 1) == Done
      ensures log == old(log) || log == old(log) + [Sends(config, now)]
      ensures o == Failed ==> world.FailsIn(old(calls), calls) || world.LateIn(old(readings), readings, deadline)
      ensures o == Fatal ==> world.FatalIn(old(calls), calls)
      ensures Streak(log, config) == Streak(old(log), config)
    {
      hide Streak, NoSendInWindow, OpensAfterFailures, OneEntryEach, Owned, Counted, WindowsKept, WindowsOpened;
      if target.client == None {
        o := Connect(target, config, t);
        if o != Done {
          return o;
        }
      }
      var at := Read();
      if deadline <= at {
        return Failed;
      }
      Record(Sends(config, at));
      StreakMore(old(log), Sends(config, at), config);
      o := Call();
    }

    /** Sets the failure count to what the record supports. */
    method Count(target: Target, ghost config: Config, failures: nat)
      requires Valid() && config in targets && targets[config] == target && failures <= Streak(log, config)
      modifies target`failures
      ensures Valid() && target.failures == failures
    {
      target.failures := failures;
    }

    /** Counts a failed attempt. */
    method Charge(target: Target, config: Config)
      requires Valid() && config in targets && targets[config] == target
      modifies target`used, target`failures, this`now, this`readings, this`log
      ensures Valid() && Later() && target.used == now
      ensures target.failures == old(target.failures) + 1 && log == old(log) + [Ends(config, false)]
      ensures Streak(log, config) == Streak(old(log), config) + 1
    {
      hide NoSendInWindow, OpensAfterFailures, Streak, Owned, OneEntryEach, WindowsKept, WindowsOpened, Clocked;
      var t := Read();
      target.used := t;
      Record(Ends(config, false));
      StreakMore(old(log), Ends(config, false), config);
      Count(target, config, target.failures + 1);
    }

    /** Opens the breaker until a time that is not before its last window. */
    method Raise(target: Target, config: Config, until: real)
      requires Valid() && config in targets && targets[config] == target && target.openUntil <= until
      requires FAILURES <= target.failures
      modifies target`openUntil, this`log
      ensures Valid() && target.openUntil == until && log == old(log) + [Opens(config, until)]
    {
      hide NoSendInWindow, OpensAfterFailures, Owned, Counted, OneEntryEach, Clocked;
      OnlyHere(target, config);
      target.openUntil := until;
      RecordOpening(target, config);
    }

    /** Opens the breaker. */
    method Trip(target: Target, config: Config)
      requires Valid() && config in targets && targets[config] == target && target.openUntil <= now
      requires FAILURES <= target.failures
      modifies target`openUntil, this`now, this`readings, this`log
      ensures Valid() && Later()
      ensures target.openUntil == now + COOLDOWN && log == old(log) + [Opens(config, target.openUntil)]
      ensures Streak(log, config) == Streak(old(log), config)
    {
      hide Valid, Streak;
      var t := Read();
      assert 0.0 < COOLDOWN;
      Raise(target, config, t + COOLDOWN);
      StreakMore(old(log), Opens(config, target.openUntil), config);
    }

    /** The `except BaseException` of `_send`. */
    method Fail(target: Target, config: Config) returns (fatal: bool)
      requires Valid() && config in targets && targets[config] == target && target.openUntil <= now
      modifies target, this`closed, this`holder, this`now, this`readings, this`calls, this`log
      ensures Valid() && target.client == None && Later()
      ensures fatal ==> log == old(log) && world.FatalIn(old(calls), calls)
      ensures !fatal ==>
                && target.failures == old(target.failures) + 1 && old(now) <= target.used
                && Streak(log, config) == Streak(old(log), config) + 1
                && (target.failures < FAILURES ==>
                      target.openUntil == old(target.openUntil) && log == old(log) + [Ends(config, false)])
                && (FAILURES <= target.failures ==>
                      && old(now) + COOLDOWN <= target.openUntil == now + COOLDOWN
                      && log == old(log) + [Ends(config, false), Opens(config, target.openUntil)])
    {
      hide Valid, Streak;
      fatal := Discard(target, config);
      if fatal {
        return;
      }
      Charge(target, config);
      if FAILURES <= target.failures {
        Trip(target, config);
      }
    }

    /** The end of `_send` after a success. */
    method Succeed(target: Target, config: Config)
      requires Valid() && config in targets && targets[config] == target
      modifies target`used, target`failures, this`now, this`readings, this`log
      ensures Valid() && Later() && target.used == now
      ensures target.failures == 0 && log == old(log) + [Ends(config, true)]
    {
      hide OneEntryEach, Owned, WindowsKept, Counted, NoSendInWindow, OpensAfterFailures, WindowsOpened, Clocked;
      Count(target, config, 0);
      Record(Ends(config, true));
      var t := Read();
      target.used := t;
    }

    /** What is on record since `before` is a send in time that succeeded. */
    ghost predicate Sending(before: seq<Event>, config: Config, deadline: real, from: Mark)
      reads this`log, this`readings, this`calls
    {
      before <= log && Sent(world, log[|before|..], config, deadline, from, At())
    }

    /** What is on record since `before` is a failed attempt, and why. */
    ghost predicate Failing(before: seq<Event>, config: Config, deadline: real, from: Mark)
      reads this`log, this`readings, this`calls
    {
      && before <= log && FailedPart(log[|before|..], config)
      && (world.FailsIn(from.calls, calls) || world.LateIn(from.readings, readings, deadline))
    }

    /** The `try` statement of `_send`. */
    method Publish(target: Target, config: Config, t: real, deadline: real) returns (o: Outcome)
      requires Valid() && config in targets && targets[config] == target && target.openUntil <= now
      modifies target, this`clients, this`closed, this`holder, this`now, this`readings, this`calls, this`log
      ensures Valid() && Later()
      ensures o == Done ==> target.client.Some? && target.failures == 0 && target.openUntil == old(target.openUntil)
      ensures o == Done ==> Sending(old(log), config, deadline, Mark(old(readings), old(calls)))
      ensures o == Failed ==> Failing(old(log), config, deadline, Mark(old(readings), old(calls)))
      ensures o == Fatal ==> old(log) <= log && world.FatalIn(old(calls), calls)
      ensures o == Failed ==> target.client == None && target.failures == old(target.failures) + 1
      ensures o == Failed ==> Streak(log, config) == Streak(old(log), config) + 1
      ensures o == Failed && FAILURES <= target.failures ==> old(now) + COOLDOWN <= target.openUntil
      ensures o == Failed && target.failures < FAILURES ==> target.openUntil == old(target.openUntil)
    {
      hide Valid, Streak;
      o := Attempt(target, config, t, deadline);
      if o == Done {
        assert now == world.clock(readings - 1);
        Succeed(target, config);
      } else {
        var fatal := Fail(target, config);
        o := if fatal then Fatal else o;
      }
    }

    /** `_send`. */
    method Send(target: Target, config: Config, deadline: real) returns (o: Outcome)
      requires Valid() && config in targets && targets[config] == target && target.openUntil <= now
      modifies target, this`clients, this`closed, this`holder, this`now, this`readings, this`calls, this`log
      ensures Valid() && Later()
      ensures o == Done ==> target.client.Some? && target.failures == 0 && target.openUntil == old(target.openUntil)
      ensures o == Done ==> Sending(old(log), config, deadline, Mark(old(readings), old(calls)))
      ensures o == Failed ==> Failing(old(log), config, deadline, Mark(old(readings), old(calls)))
      ensures o == Fatal ==> old(log) <= log && world.FatalIn(old(calls), calls)
      ensures o == Failed ==> target.client == None && target.failures == old(target.failures) + 1
      ensures o == Failed ==> Streak(log, config) == Streak(old(log), config) + 1
      ensures o == Failed && FAILURES <= target.failures ==> old(now) + COOLDOWN <= target.openUntil
      ensures o == Failed && target.failures < FAILURES ==> target.openUntil == old(target.openUntil)
    {
      hide Valid, Streak;
      var t := Read();
      var fatal := Expire(target, t, config);
      if fatal {
        return Fatal;
      }
      o := Publish(target, config, t, deadline);
    }

    /** `_open`, at a given time: what callers and the worker ask the table. */
    ghost predicate OpenAt(config: Config, at: real)
      reads this`targets, targets.Values
    {
      config in targets && at < targets[config].openUntil
    }

    method Open(config: Config) returns (open: bool)
      requires Valid()
      modifies this`now, this`readings
      ensures Valid() && old(now) <= now && open == OpenAt(config, now)
      ensures readings == old(readings) + if config in targets then 1 else 0
    {
      open := false;
      if config in targets {
        var t := Read();
        open := t < targets[config].openUntil;
      }
    }

    /** An entry that a sweep forgets: no client, no open window, nothing tried lately. */
    ghost predicate Forgettable(target: Target, at: real)
      reads target
    {
      target.client == None && target.openUntil <= at && IDLE < at - target.used
    }

    /** Whether a sweep leaves an entry as it should be. */
    ghost predicate Fresh(target: Target, at: real)
      reads target
    {
      && !Forgettable(target, at)
      && (target.client.Some? ==> at - target.used <= IDLE && at - target.born <= MAX_AGE)
    }

    /** `del targets[c]`, of an entry without a client whose window is over. */
    method Forget(c: Config)
      requires Valid() && c in targets && targets[c].client == None && targets[c].openUntil <= now
      modifies this`targets
      ensures Valid() && targets == old(targets) - {c}
    {
      hide NoSendInWindow, OpensAfterFailures, Streak, Clocked;
      targets := targets - {c};
    }

    /** The sweep of one entry. */
    method Visit(c: Config, target: Target, t: real) returns (fatal: bool)
      requires Valid() && c in targets && targets[c] == target && t == now
      modifies this`targets, this`closed, this`holder, this`calls, target`client
      ensures Valid() && old(calls) <= calls && (fatal ==> world.FatalIn(old(calls), calls))
      ensures target.client == None || target.client == old(target.client)
      ensures fatal ==> targets == old(targets)
      ensures !fatal ==> targets == if Forgettable(target, t) then old(targets) - {c} else old(targets)
      ensures !fatal && c in targets ==> Fresh(target, t)
    {
      hide Valid;
      fatal := Expire(target, t, c);
      if !fatal && target.client == None && target.openUntil <= t && IDLE < t - target.used {
        Forget(c);
      }
    }

    /** Entries are kept as they are; one that is gone could be forgotten. */
    ghost predicate Swept(before: map<Config, Target>, t: real)
      reads this`targets, before.Values
    {
      && (forall c | c in targets :: c in before && targets[c] == before[c])
      && (forall c | c in before && c !in targets :: Forgettable(before[c], t))
    }

    /** The loop of `_sweep`, over the entries there were when it began. */
    method Walk(t: real) returns (fatal: bool)
      requires Valid() && t == now
      modifies this`targets, this`closed, this`holder, this`calls, targets.Values`client
      ensures Valid() && old(calls) <= calls && (fatal ==> world.FatalIn(old(calls), calls))
      ensures Swept(old(targets), t)
      ensures !fatal ==> forall c | c in targets :: Fresh(targets[c], t)
    {
      hide Valid;
      fatal := false;
      var todo := targets.Keys;
      while todo != {}
        invariant Valid() && todo <= targets.Keys && old(calls) <= calls
        invariant Swept(old(targets), t)
        invariant forall c | c in targets && c !in todo :: Fresh(targets[c], t)
        decreases |todo|
      {
        var c :| c in todo;
        todo := todo - {c};
        fatal := Visit(c, targets[c], t);
        if fatal {
          return;
        }
      }
    }

    /** `_sweep`: it never shortens a window that a caller may still ask about. */
    method Sweep() returns (fatal: bool)
      requires Valid()
      modifies this`targets, this`swept, this`now, this`readings, this`calls, this`closed, this`holder,
               targets.Values`client
      ensures Valid() && Later() && swept == now && (fatal ==> world.FatalIn(old(calls), calls))
      ensures Swept(old(targets), now)
      ensures !fatal ==> forall c | c in targets :: Fresh(targets[c], now)
      ensures forall c, at | now <= at :: OpenAt(c, at) == old(OpenAt(c, at))
    {
      hide Fresh, OneEntryEach, WindowsKept, Counted, NoSendInWindow, OpensAfterFailures, Owned, WindowsOpened, Clocked;
      var t := Read();
      swept := t;
      fatal := Walk(t);
    }

    /** `targets.setdefault`, for a configuration whose breaker is not open. */
    method Entry(config: Config) returns (target: Target)
      requires Valid() && !OpenAt(config, now)
      modifies this`targets
      ensures Valid() && target.openUntil <= now
      ensures targets == if config in old(targets) then old(targets) else old(targets)[config := target]
      ensures config in targets && targets[config] == target
      ensures config !in old(targets) ==> fresh(target)
    {
      if config in targets {
        return targets[config];
      }
      target := new Target();
      targets := targets[config := target];
    }

    /** Every entry is as it was, or new. */
    twostate predicate EntriesKept()
      reads this`targets
    {
      forall c | c in targets :: (c in old(targets) && targets[c] == old(targets)[c]) || fresh(targets[c])
    }

    /** Sweeps once per `IDLE`, not per job; the last sweep is less than that before `seen`. */
    method SweepIfDue() returns (fatal: bool, ghost seen: real)
      requires Valid()
      modifies this`targets, this`swept, this`now, this`readings, this`calls, this`closed, this`holder,
               targets.Values`client
      ensures Valid() && EntriesKept() && Later() && (fatal ==> world.FatalIn(old(calls), calls))
      ensures old(now) <= seen <= now && seen - swept < IDLE
    {
      assert 0.0 < IDLE;
      hide Valid, Fresh, OpenAt;
      var t := Read();
      seen := t;
      fatal := false;
      if IDLE <= t - swept {
        fatal := Sweep();
      }
    }

    /** The configuration's window was opened before, and is open at one of the readings since. */
    ghost predicate Shut(before: seq<Event>, config: Config, from: Mark)
      reads this`readings, this`calls
    {
      OpenIn(world, before, config, from, At())
    }

    /** A window that is open in the table is one that was opened. */
    lemma OpenWasOpened(config: Config, from: Mark)
      requires Valid() && OpenAt(config, now) && from.readings < readings
      ensures Shut(log, config, from)
    {
      hide NoSendInWindow, OpensAfterFailures, Owned, OneEntryEach, Counted, WindowsKept;
      assert 0.0 <= world.clock(0) <= now;
      var i :| 0 <= i < |log| && log[i] == Opens(config, targets[config].openUntil);
      assert world.BeforeIn(from.readings, readings, log[i].until);
    }

    /** Sends one job, unless it is late or its breaker is open. */
    method Deliver(config: Config, deadline: real) returns (o: Outcome, served: bool)
      requires Valid()
      modifies this`targets, this`clients, this`closed, this`holder, this`now, this`readings, this`calls, this`log,
               targets.Values
      ensures Valid() && EntriesKept() && Later()
      ensures served ==> o == Done && Sending(old(log), config, deadline, Mark(old(readings), old(calls)))
      ensures o == Done && !served ==>
                && log == old(log)
                && (world.LateIn(old(readings), readings, deadline) || Shut(log, config, Mark(old(readings), old(calls))))
      ensures o == Failed ==> Failing(old(log), config, deadline, Mark(old(readings), old(calls)))
      ensures o == Failed ==> Streak(log, config) == Streak(old(log), config) + 1
      ensures o == Fatal ==> old(log) <= log && world.FatalIn(old(calls), calls)
    {
      hide Valid, Streak;
      served := false;
      var t := Read();
      if deadline <= t {
        return Done, false;
      }
      var open := Open(config);
      if open {
        OpenWasOpened(config, Mark(old(readings), old(calls)));
        return Done, false;
      }
      var target := Entry(config);
      o := Send(target, config, deadline);
      served := o == Done;
    }

    /**
      One job; `served` when its pipeline executed. A job is left out only if it is late or
      its breaker is open.
     */
    method Serve(config: Config, deadline: real) returns (o: Outcome, served: bool, ghost seen: real)
      requires Valid()
      modifies this`targets, this`swept, this`clients, this`closed, this`holder, this`now, this`readings, this`calls,
               this`log, targets.Values
      ensures Valid() && EntriesKept() && Later() && old(log) <= log
      ensures served ==> o == Done
      ensures o != Fatal ==>
                Accounted(world, Job(config, deadline), old(log), log[|old(log)|..], Mark(old(readings), old(calls)), At())
      ensures o == Done && served ==> Sending(old(log), config, deadline, Mark(old(readings), old(calls)))
      ensures o == Done && !served ==> log == old(log)
      ensures o == Failed ==> Streak(log, config) == Streak(old(log), config) + 1
      ensures o == Fatal ==> world.FatalIn(old(calls), calls)
      ensures old(now) <= seen <= now && seen - swept < IDLE
    {
      hide Valid, Streak;
      served := false;
      var fatal;
      fatal, seen := SweepIfDue();
      if fatal {
        return Fatal, false, seen;
      }
      o, served := Deliver(config, deadline);
    }

    /** The entry of one configuration lets its client go. */
    method DiscardAt(c: Config, target: Target) returns (fatal: bool)
      requires Valid() && c in targets && targets[c] == target
      modifies this`closed, this`holder, this`calls, target`client
      ensures Valid() && target.client == None && old(calls) <= calls
      ensures fatal ==> world.FatalIn(old(calls), calls)
    {
      hide Valid;
      fatal := Discard(target, c);
    }

    /** The end of `_run`: every client is closed, also when closing one is fatal. */
    method DiscardAll() returns (fatal: bool)
      requires Valid()
      modifies this`closed, this`holder, this`calls, targets.Values`client
      ensures Valid() && old(calls) <= calls && (fatal ==> world.FatalIn(old(calls), calls))
      ensures forall i: nat | i < clients :: i in closed
    {
      hide Valid;
      fatal := false;
      var todo := targets.Keys;
      while todo != {}
        invariant Valid() && todo <= targets.Keys && old(calls) <= calls
        invariant fatal ==> world.FatalIn(old(calls), calls)
        invariant forall c | c in targets && c !in todo :: targets[c].client == None
        decreases |todo|
      {
        var c :| c in todo;
        todo := todo - {c};
        var f := DiscardAt(c, targets[c]);
        fatal := fatal || f;
      }
      NoneIsLeft();
    }

    lemma NoneIsLeft()
      requires Valid() && forall c | c in targets :: targets[c].client == None
      ensures forall i: nat | i < clients :: i in closed
    {
    }

    /** One turn of the loop of `_run`. */
    method Turn(input: Input) returns (fatal: bool)
      requires Valid()
      modifies this`targets, this`swept, this`clients, this`closed, this`holder, this`now, this`readings, this`calls,
               this`log, targets.Values
      ensures Valid() && EntriesKept() && Later() && old(log) <= log
      ensures fatal ==> world.FatalIn(old(calls), calls)
      ensures !fatal ==>
                Accounted(world, input, old(log), log[|old(log)|..], Mark(old(readings), old(calls)), At())
    {
      hide Valid;
      if input.NoJob? {
        fatal := Sweep();
      } else {
        var o, _, _ := Serve(input.config, input.deadline);
        fatal := o == Fatal;
      }
    }

    lemma ValidIsSafe()
      requires Valid()
      ensures NoSendInWindow(log) && OpensAfterFailures(log)
    {
    }

    /**
      `_run`, for whatever arrives until the worker stops: no send ever began in an open
      window, no client was closed twice, and none outlives the worker. Every job that is
      reached before a fatal outcome has its own part of the log, in order, which shows what
      became of it and is explained by the clock and the library: a job that is on time is
      sent unless its window is open or a call fails.
     */
    method Run(inputs: seq<Input>) returns (fatal: bool, ghost parts: seq<seq<Event>>, ghost marks: seq<Mark>)
      requires Valid() && targets == map[] && log == []
      modifies this
      ensures Valid() && NoSendInWindow(log) && OpensAfterFailures(log)
      ensures forall i: nat | i < clients :: i in closed
      ensures AllAccounted(world, inputs, parts, marks) && Joined(parts) <= log
      ensures forall k: nat | k < |parts| && Undisturbed(world, inputs[k], Joined(parts[..k]), marks[k], marks[k + 1]) ::
                Sent(world, parts[k], inputs[k].config, inputs[k].deadline, marks[k], marks[k + 1])
      ensures |parts| < |inputs| || fatal ==> world.FatalIn(0, calls)
      ensures |parts| == |inputs| ==> log == Joined(parts)
    {
      hide Valid, Accounted, Undisturbed, Sent, NoSendInWindow, OpensAfterFailures;
      fatal, parts, marks := false, [], [At()];
      var n := 0;
      while n < |inputs| && !fatal
        invariant Valid() && n <= |inputs|
        invariant forall c | c in targets :: fresh(targets[c])
        invariant AllAccounted(world, inputs, parts, marks) && Joined(parts) <= log
        invariant fatal ==> world.FatalIn(0, calls)
        invariant !fatal ==> |parts| == n && log == Joined(parts) && marks[n] == At()
        invariant fatal ==> |parts| < n
        decreases |inputs| - n, !fatal
      {
        ghost var before := log;
        fatal := Turn(inputs[n]);
        if !fatal {
          AccountedMore(world, inputs, parts, marks, log[|before|..], At());
          parts, marks := parts + [log[|before|..]], marks + [At()];
        }
        n := n + 1;
      }
      var f := DiscardAll();
      fatal := fatal || f;
      ValidIsSafe();
      UndisturbedJobsAreSent(world, inputs, parts, marks);
    }
  }
}
