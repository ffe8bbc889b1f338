/**
  Exactly when a call of `resolve` raises and one of `invalidate` fails, and what becomes of
  a publication that is not confirmed, whatever else happens in the run.
 */
module Resolving {
  import opened CacheProtocol
  import opened Wrappers

  // ---------------------------------------------------------------------------
  // A call raises exactly if one of its own operations failed
  // ---------------------------------------------------------------------------

  predicate IsOf(step: Step, q: Pid) { IsReaderStep(step) && step.pid == q }

  /** A source that the call reads is down. */
  predicate SourceFails(step: Step, q: Pid) {
    step.Read? && step.pid == q && !step.up
  }

  /**
    An operation of the call fails: a source is down, the backend reports a failure, or the
    generation is gone where the call must find one. The generation is asked for only if a
    source is cached.
   */
  predicate OwnFailure(st: State, step: Step, q: Pid) {
    IsOf(step, q) && q in st.readers &&
    match step
    case Peek(_, ok) => !ok && exists slot :: slot in st.readers[q].slots && slot.cached
    case Lookup(_, ok) => !ok
    case Read(_, up, _) => !up
    case Store(_, _, ok) => !ok
    case Confirm(_, ok) => !ok || st.current == None
    case Discard(_, _, ok) => !ok
    case AddInitial(_, _, outcome) => outcome.AddFailed?
    case CheckInitial(_, ok) => !ok || st.current == None
    case _ => false
  }

  /** The call has raised, or raises as soon as it has cleaned up behind a failed confirmation. */
  predicate Raises(r: Reader) { r.pc == Raised || r.pc == Discarding(true) }

  lemma AdvanceRaisesNothing()
    ensures forall r :: !Raises(Advance(r)) && Advance(r).mode == r.mode
  {
  }

  lemma WritesRaise(r: Reader)
    ensures WriteFailed(r).mode == r.mode && (Raises(WriteFailed(r)) <==> r.mode == Raise)
    ensures r.pending != [] ==> Published(r).mode == r.mode && !Raises(Published(r))
  {
    AdvanceRaisesNothing();
    hide Advance;
  }

  lemma AskingRaises(st: State, step: Step, q: Pid)
    requires Enabled(st, step) && (step.Peek? || step.Lookup? || step.Read?) && step.pid == q
    requires st.readers[q].mode == Raise
    ensures Raises(ReaderAfter(st, step)) <==> OwnFailure(st, step, q)
  {
    AdvanceRaisesNothing();
    hide Advance, Floor, Held;
  }

  lemma WritingRaises(st: State, step: Step, q: Pid)
    requires Enabled(st, step) && IsOf(step, q) && !step.StartResolve?
    requires !(step.Peek? || step.Lookup? || step.Read?) && st.readers[q].mode == Raise
    ensures Raises(ReaderAfter(st, step)) <==> st.readers[q].pc == Discarding(true) || OwnFailure(st, step, q)
  {
    AdvanceRaisesNothing();
    WritesRaise(st.readers[q]);
    hide Advance, WriteFailed, Published;
  }

  /** One step of any process: a call in raise mode comes to raise exactly by its own failure. */
  lemma FailureDecides(st: State, step: Step, q: Pid)
    requires Enabled(st, step) && q in st.readers && st.readers[q].mode == Raise
    ensures q in Do(st, step).readers && Do(st, step).readers[q].mode == Raise
    ensures Raises(Do(st, step).readers[q]) <==> Raises(st.readers[q]) || OwnFailure(st, step, q)
  {
    if !IsOf(step, q) {
      OthersLeave(st, step, q);
    } else {
      OwnStepIs(st, step);
      KeepsMode(st, step);
      if step.Peek? || step.Lookup? || step.Read? {
        AskingRaises(st, step, q);
      } else {
        WritingRaises(st, step, q);
      }
      RaisedIsTheEnd(st, step);
    }
  }

  lemma OthersLeave(st: State, step: Step, q: Pid)
    requires Enabled(st, step) && q in st.readers && !IsOf(step, q)
    ensures q in Do(st, step).readers && Do(st, step).readers[q] == st.readers[q]
  {
    hide ReaderAfter, InvalidatorAfter, Backend;
    BackendKeepsReaders(st, step);
  }

  lemma BackendKeepsReaders(st: State, step: Step)
    requires Enabled(st, step)
    ensures Backend(st, step).readers == st.readers
  {
    hide PendingKey, CanPublish, ReaderAt, Oldest;
  }

  lemma OwnStepIs(st: State, step: Step)
    requires Enabled(st, step) && IsReaderStep(step)
    ensures Do(st, step).readers == st.readers[step.pid := ReaderAfter(st, step)]
    ensures step.StartResolve? <==> step.pid !in st.readers
  {
    hide ReaderAfter, InvalidatorAfter;
  }

  lemma KeepsMode(st: State, step: Step)
    requires Enabled(st, step) && IsReaderStep(step) && step.pid in st.readers
    ensures ReaderAfter(st, step).mode == st.readers[step.pid].mode
  {
    if step.Peek? {
      AdvanceRaisesNothing();
      hide Advance, Floor;
    } else {
      ActingCallIsKept(st, step);
    }
  }

  lemma RaisedIsTheEnd(st: State, step: Step)
    requires Enabled(st, step) && IsReaderStep(step) && step.pid in st.readers
    ensures st.readers[step.pid].pc != Raised
    ensures st.readers[step.pid].pc == Discarding(true) ==> step.Discard?
  {
  }

  lemma {:induction false} NotStarted(states: seq<State>, steps: seq<Step>, q: Pid, k: nat, n: nat)
    requires Run(states, steps) && k <= n < |states| && q !in states[n].readers
    ensures q !in states[k].readers
    decreases n
  {
    if k < n {
      RunStep(states, steps, n);
      if q in states[n - 1].readers {
        CallsStay(states[n - 1], steps[n - 1], q);
      }
      NotStarted(states, steps, q, k, n - 1);
    }
  }

  lemma CallsStay(st: State, step: Step, q: Pid)
    requires Enabled(st, step) && q in st.readers
    ensures q in Do(st, step).readers && Do(st, step).readers[q].mode == st.readers[q].mode
  {
    if IsOf(step, q) {
      OwnStepIs(st, step);
      KeepsMode(st, step);
    } else {
      OthersLeave(st, step, q);
    }
  }

  lemma JustStarted(st: State, step: Step, q: Pid)
    requires Enabled(st, step) && q !in st.readers && q in Do(st, step).readers
    ensures Do(st, step).readers[q].pc == Peeking
    ensures step.StartResolve? && step.pid == q
  {
    hide InvalidatorAfter;
    BackendKeepsReaders(st, step);
  }

  /**
    In raise mode, whatever else happens in the run: a call has raised, or is about to
    behind a failed confirmation, if and only if one of its own operations failed. A miss
    in the cache, an expired entry or an invalidation is no failure.
   */
  lemma {:induction false} RaisesIff(states: seq<State>, steps: seq<Step>, q: Pid, n: nat)
    requires Run(states, steps) && n < |states| && q in states[n].readers && states[n].readers[q].mode == Raise
    ensures Raises(states[n].readers[q]) <==> exists k :: 0 <= k < n && OwnFailure(states[k], steps[k], q)
    decreases n
  {
    hide Do, Enabled, OwnFailure, Raises, EntryInv, ReaderInv, InvalidatorTimes;
    if n > 0 {
      RunStep(states, steps, n);
      var st, step := states[n - 1], steps[n - 1];
      if q in st.readers {
        CallsStay(st, step, q);
        FailureDecides(st, step, q);
        RaisesIff(states, steps, q, n - 1);
      } else {
        JustStarted(st, step, q);
        NothingRaisesYet(states[n].readers[q]);
        forall k | 0 <= k < n ensures !OwnFailure(states[k], steps[k], q) {
          NotStarted(states, steps, q, k, n - 1);
          NoFailureOf(states[k], steps[k], q);
        }
      }
    }
  }

  lemma NothingRaisesYet(r: Reader)
    requires r.pc == Peeking
    ensures !Raises(r)
  {
  }

  lemma NoFailureOf(st: State, step: Step, q: Pid)
    requires q !in st.readers
    ensures !OwnFailure(st, step, q)
  {
  }

  /** In bypass mode only a source that is down makes a call raise, and it always does. */
  lemma {:induction false} BypassRaisesIff(states: seq<State>, steps: seq<Step>, q: Pid, n: nat)
    requires Run(states, steps) && n < |states| && q in states[n].readers && states[n].readers[q].mode == Bypass
    ensures states[n].readers[q].pc == Raised <==> exists k :: 0 <= k < n && SourceFails(steps[k], q)
    decreases n
  {
    hide Do, Enabled, SourceFails, EntryInv, ReaderInv, InvalidatorTimes;
    if n > 0 {
      RunStep(states, steps, n);
      var st, step := states[n - 1], steps[n - 1];
      if q in st.readers {
        CallsStay(st, step, q);
        SourceDecides(st, step, q);
        BypassRaisesIff(states, steps, q, n - 1);
      } else {
        JustStarted(st, step, q);
        forall k | 0 <= k < n ensures !SourceFails(steps[k], q) {
          NotStarted(states, steps, q, k, n - 1);
          RunStep(states, steps, k + 1);
          NoReadOf(states[k], steps[k], q);
        }
      }
    }
  }

  lemma NoReadOf(st: State, step: Step, q: Pid)
    requires Enabled(st, step) && q !in st.readers
    ensures !SourceFails(step, q)
  {
  }

  lemma SourceDecides(st: State, step: Step, q: Pid)
    requires Enabled(st, step) && q in st.readers && st.readers[q].mode == Bypass
    ensures q in Do(st, step).readers
    ensures Do(st, step).readers[q].pc == Raised <==> st.readers[q].pc == Raised || SourceFails(step, q)
  {
    if !IsOf(step, q) {
      OthersLeave(st, step, q);
    } else {
      OwnStepIs(st, step);
      RaisedIsTheEnd(st, step);
      OwnSourceDecides(st, step, q);
    }
  }

  lemma OwnSourceDecides(st: State, step: Step, q: Pid)
    requires Enabled(st, step) && IsOf(step, q) && !step.StartResolve? && st.readers[q].mode == Bypass
    ensures ReaderAfter(st, step).pc == Raised <==> SourceFails(step, q)
  {
    AdvanceRaisesNothing();
    WritesRaise(st.readers[q]);
    hide Advance, WriteFailed, Published, Floor, Held;
  }

  // ---------------------------------------------------------------------------
  // A publication that is not confirmed is deleted
  // ---------------------------------------------------------------------------

  /** The generation cannot be read, is gone, or is no longer the one the call works under. */
  predicate Unconfirmed(st: State, step: Step, q: Pid) {
    step.Confirm? && step.pid == q && q in st.readers
    && (!step.ok || st.current == None || st.current != st.readers[q].generation)
  }

  predicate MustDiscard(r: Reader, key: Key) { r.pc.Discarding? && CanPublish(r) && PendingKey(r) == key }

  lemma UnconfirmedMust(st: State, step: Step, q: Pid)
    requires Enabled(st, step) && Unconfirmed(st, step, q)
    ensures q in st.readers && CanPublish(st.readers[q]) && q in Do(st, step).readers
    ensures MustDiscard(Do(st, step).readers[q], PendingKey(st.readers[q]))
  {
    OwnStepIs(st, step);
    hide Published;
  }

  lemma {:induction false} StillMust(states: seq<State>, steps: seq<Step>, q: Pid, from: nat, m: nat, key: Key)
    requires Run(states, steps) && from <= m < |states|
    requires q in states[from].readers && MustDiscard(states[from].readers[q], key)
    requires forall k | from <= k < m :: !IsOf(steps[k], q)
    ensures q in states[m].readers && MustDiscard(states[m].readers[q], key)
    decreases m
  {
    hide Do, Enabled, MustDiscard, IsOf;
    if from < m {
      StillMust(states, steps, q, from, m - 1, key);
      RunStep(states, steps, m);
      OthersLeave(states[m - 1], steps[m - 1], q);
    }
  }

  lemma OnlyDiscards(st: State, step: Step, q: Pid, key: Key)
    requires Enabled(st, step) && IsOf(step, q) && q in st.readers && MustDiscard(st.readers[q], key)
    ensures step.Discard? && (step.applied ==> key !in Do(st, step).entries)
  {
    hide ReaderAfter;
  }

  /**
    Whatever happens in between, the next thing that the call does behind a failed
    confirmation is to delete what it has set, and if the backend does that it is gone.
   */
  lemma UnconfirmedIsDiscarded(states: seq<State>, steps: seq<Step>, q: Pid, n: nat, m: nat)
    requires Run(states, steps) && n < m < |steps| && Unconfirmed(states[n], steps[n], q) && IsOf(steps[m], q)
    requires forall k | n < k < m :: !IsOf(steps[k], q)
    ensures CanPublish(states[n].readers[q]) && steps[m].Discard?
    ensures steps[m].applied ==> PendingKey(states[n].readers[q]) !in states[m + 1].entries
  {
    hide Do, MustDiscard, Unconfirmed, IsOf;
    RunStep(states, steps, n + 1);
    UnconfirmedMust(states[n], steps[n], q);
    StillMust(states, steps, q, n + 1, m, PendingKey(states[n].readers[q]));
    RunStep(states, steps, m + 1);
    OnlyDiscards(states[m], steps[m], q, PendingKey(states[n].readers[q]));
  }

  // ---------------------------------------------------------------------------
  // An invalidation fails exactly if one of its own operations failed
  // ---------------------------------------------------------------------------

  predicate IsOfInvalidator(step: Step, i: Pid) { IsInvalidatorStep(step) && step.pid == i }

  /**
    An operation of the call fails: the backend reports a failure, the generation is gone
    where the call must find one, or the confirming read finds the old one.
   */
  predicate InvalidatorFailure(st: State, step: Step, i: Pid) {
    IsOfInvalidator(step, i) && i in st.invalidators &&
    match step
    case PeekCurrent(_, ok) => !ok
    case AddCurrent(_, _, outcome) => outcome.AddFailed?
    case ReadCurrent(_, ok) => !ok || st.current == None
    case Rotate(_, _, _, ok) => !ok
    case Verify(_, ok) => !ok || st.current == None || st.invalidators[i].pc == Verifying(st.current.value)
    case _ => false
  }

  lemma InvalidatorsStep(st: State, step: Step)
    requires Enabled(st, step)
    ensures Do(st, step).invalidators ==
            if IsInvalidatorStep(step) then st.invalidators[step.pid := InvalidatorAfter(st, step)] else st.invalidators
    ensures step.StartInvalidate? ==> step.pid !in st.invalidators
    ensures IsInvalidatorStep(step) && !step.StartInvalidate? ==>
              step.pid in st.invalidators && st.invalidators[step.pid].pc != Failed
  {
    hide ReaderAfter, InvalidatorAfter;
  }

  lemma OwnInvalidatorDecides(st: State, step: Step, i: Pid)
    requires Enabled(st, step) && IsOfInvalidator(step, i)
    ensures InvalidatorAfter(st, step).pc == Failed <==> InvalidatorFailure(st, step, i)
  {
  }

  /** An invalidation has failed if and only if one of its own operations failed. */
  lemma {:induction false} InvalidationFailsIff(states: seq<State>, steps: seq<Step>, i: Pid, n: nat)
    requires Run(states, steps) && n < |states|
    ensures i in states[n].invalidators && states[n].invalidators[i].pc == Failed
            <==> exists k :: 0 <= k < n && InvalidatorFailure(states[k], steps[k], i)
  {
    hide Do, Enabled, InvalidatorAfter, InvalidatorFailure;
    if n == 0 {
      assert states[0].invalidators == map[];
    } else {
      InvalidationFailsIff(states, steps, i, n - 1);
      RunStep(states, steps, n);
      var st, step := states[n - 1], steps[n - 1];
      InvalidatorsStep(st, step);
      if IsOfInvalidator(step, i) {
        OwnInvalidatorDecides(st, step, i);
      } else {
        NoFailureOfOthers(st, step, i);
      }
    }
  }

  lemma NoFailureOfOthers(st: State, step: Step, i: Pid)
    requires !IsOfInvalidator(step, i)
    ensures !InvalidatorFailure(st, step, i)
  {
  }
}
