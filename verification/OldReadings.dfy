/**
  Exactly when a call of `resolve` that reads a generation may still be answered with a
  reading from before some moment, such as the start of an invalidation: when the store
  holds one under that generation, or a resolver is about to store one there.
 */
module OldReadings {
  import opened CacheProtocol
  import opened Wrappers

  /** What a resolver may still store: nothing twice, and nothing once a write has failed. */
  function Unstored(r: Reader): seq<Reading> {
    match r.pc
    case Storing => r.pending
    case Confirming => if r.pending == [] then [] else r.pending[1..]
    case Discarding(failed) => if failed || r.pending == [] then [] else r.pending[1..]
    case _ => []
  }

  /** An entry under the token that was read before `began`. */
  predicate OldEntry(st: State, key: Key, token: Token, began: nat) {
    key in st.entries && key.token == token && st.entries[key].at < began
  }

  /** A resolver that works under the token may still store this reading from before `began`. */
  predicate OldPending(st: State, pid: Pid, p: Reading, token: Token, began: nat) {
    && pid in st.readers && st.readers[pid].generation == Some(token)
    && p in Unstored(st.readers[pid]) && p.at < began
  }

  /** Both can be looked up in the backend and in the processes. */
  ghost predicate HoldsOld(st: State, token: Token, began: nat) {
    || (exists key :: OldEntry(st, key, token, began))
    || (exists pid, p :: OldPending(st, pid, p, token, began))
  }

  // ---------------------------------------------------------------------------
  // What is clean stays clean
  // ---------------------------------------------------------------------------

  lemma GoingOnUnstored(r: Reader)
    ensures Unstored(Advance(r)) == [] && Unstored(WriteFailed(r)) == []
    ensures r.pending != [] ==> Unstored(Published(r)) == r.pending[1..]
  {
  }

  /** Going on with the next source, or ending, stores nothing and gets nothing. */
  lemma AdvancingIsQuiet()
    ensures forall r :: Unstored(Advance(r)) == [] && Advance(r).seen == r.seen
  {
  }

  lemma AskingUnstored(st: State, r: Reader, ok: bool)
    ensures st.history != [] ==> Unstored(AfterPeek(st, r, ok)) == []
    ensures |r.seen| < |r.slots| && AsksCache(r) ==> Unstored(AfterLookup(st, r, ok)) == []
  {
    AdvancingIsQuiet();
    hide Advance, Floor;
  }

  lemma ReadUnstored(st: State, r: Reader, up: bool, safe: bool)
    requires st.history != [] && |r.seen| < |r.slots|
    ensures forall p | p in Unstored(AfterRead(st, r, up, safe)) :: p.at == st.Now()
  {
    AdvancingIsQuiet();
    hide Advance, Held;
  }

  /** What is unstored after a step was so before, has just been read, or is under a new token. */
  ghost predicate ComesFrom(st: State, r: Reader, r': Reader, p: Reading) {
    || (r'.generation.Some? && r'.generation.value !in st.issued)
    || p.at == st.Now()
    || (r'.generation == r.generation && p in Unstored(r))
  }

  lemma ConfirmUnstored(st: State, r: Reader, ok: bool, p: Reading)
    requires r.pending != [] && p in Unstored(AfterConfirm(st, r, ok))
    ensures p in r.pending[1..]
  {
    GoingOnUnstored(r);
    hide Published;
  }

  lemma DiscardUnstored(r: Reader, ok: bool, p: Reading)
    requires r.pc.Discarding? && r.pending != []
    requires p in Unstored(if r.pc.failed || !ok then WriteFailed(r) else Published(r))
    ensures p in Unstored(r)
  {
    GoingOnUnstored(r);
    hide Published, WriteFailed;
  }

  lemma WritingUnstored(st: State, step: Step, p: Reading)
    requires Enabled(st, step) && (step.Store? || step.Confirm? || step.Discard?)
    requires p in Unstored(ReaderAfter(st, step))
    ensures ComesFrom(st, st.readers[step.pid], ReaderAfter(st, step), p)
  {
    hide WriteFailed, Published, AfterConfirm;
    var r := st.readers[step.pid];
    match step {
      case Store(_, _, _) => GoingOnUnstored(r);
      case Confirm(_, ok) => ConfirmUnstored(st, r, ok, p);
      case Discard(_, _, ok) => DiscardUnstored(r, ok, p);
    }
  }

  lemma EndingUnstored(st: State, step: Step, p: Reading)
    requires Enabled(st, step) && (step.AddInitial? || step.CheckInitial?)
    requires p in Unstored(ReaderAfter(st, step))
    ensures ComesFrom(st, st.readers[step.pid], ReaderAfter(st, step), p)
  {
    GoingOnUnstored(st.readers[step.pid]);
    hide Advance, WriteFailed;
  }

  lemma ReadingUnstored(st: State, step: Step, p: Reading)
    requires Enabled(st, step) && (step.Peek? || step.Lookup? || step.Read?)
    requires p in Unstored(ReaderAfter(st, step))
    ensures ComesFrom(st, st.readers[step.pid], ReaderAfter(st, step), p)
  {
    hide AfterPeek, AfterLookup, AfterRead;
    var r := st.readers[step.pid];
    match step {
      case Peek(_, ok) => AskingUnstored(st, r, ok);
      case Lookup(_, ok) => AskingUnstored(st, r, ok);
      case Read(_, up, safe) => ReadUnstored(st, r, up, safe);
    }
  }

  lemma UnstoredEffect(st: State, step: Step, p: Reading)
    requires Enabled(st, step) && IsReaderStep(step) && !step.StartResolve?
    requires p in Unstored(ReaderAfter(st, step))
    ensures ComesFrom(st, st.readers[step.pid], ReaderAfter(st, step), p)
  {
    hide ReaderAfter, Unstored, ComesFrom;
    if step.Peek? || step.Lookup? || step.Read? {
      ReadingUnstored(st, step, p);
    } else if step.Store? || step.Confirm? || step.Discard? {
      WritingUnstored(st, step, p);
    } else {
      EndingUnstored(st, step, p);
    }
  }

  lemma ActingReader(st: State, step: Step)
    requires Enabled(st, step) && IsReaderStep(step)
    ensures Do(st, step).readers == st.readers[step.pid := ReaderAfter(st, step)]
    ensures !step.StartResolve? ==> step.pid in st.readers
  {
    hide ReaderAfter;
  }

  lemma OtherReader(st: State, step: Step, pid: Pid)
    requires Enabled(st, step) && !(IsReaderStep(step) && step.pid == pid)
    ensures pid in Do(st, step).readers ==> pid in st.readers && Do(st, step).readers[pid] == st.readers[pid]
  {
    hide ReaderAfter, InvalidatorAfter;
  }

  lemma StartedReader(st: State, step: Step)
    requires Enabled(st, step) && step.StartResolve?
    ensures step.pid in Do(st, step).readers && Do(st, step).readers[step.pid].generation == None
  {
    hide InvalidatorAfter;
  }

  lemma StepKeepsEntriesClean(st: State, step: Step, token: Token, began: nat, key: Key)
    requires BaseInv(st) && Enabled(st, step) && !HoldsOld(st, token, began)
    ensures !OldEntry(Do(st, step), key, token, began)
  {
    if key in Do(st, step).entries && key.token == token {
      EntryEffect(st, step, key);
      var reading := Do(st, step).entries[key];
      if key in st.entries && reading == st.entries[key] {
        assert !OldEntry(st, key, token, began);
      } else {
        assert !OldPending(st, step.pid, reading, token, began);
      }
    }
  }

  lemma StepKeepsPendingClean(st: State, step: Step, token: Token, began: nat, pid: Pid, p: Reading)
    requires BaseInv(st) && Enabled(st, step) && !HoldsOld(st, token, began)
    requires token in st.crowned && began <= st.Now()
    ensures !OldPending(Do(st, step), pid, p, token, began)
  {
    hide Do, Enabled, ReaderAfter, EntryInv, ReaderInv, InvalidatorTimes;
    assert !OldPending(st, pid, p, token, began);
    if !(IsReaderStep(step) && step.pid == pid) {
      OtherReader(st, step, pid);
    } else if step.StartResolve? {
      StartedReader(st, step);
    } else {
      ActingReader(st, step);
      if p in Unstored(ReaderAfter(st, step)) {
        UnstoredEffect(st, step, p);
      }
    }
  }

  /** Every step of every process leaves a clean token clean. */
  lemma StepKeepsClean(st: State, step: Step, token: Token, began: nat)
    requires BaseInv(st) && Enabled(st, step) && !HoldsOld(st, token, began)
    requires token in st.crowned && began <= st.Now()
    ensures !HoldsOld(Do(st, step), token, began)
  {
    hide Do, Enabled, BaseInv, OldEntry, OldPending;
    forall key ensures !OldEntry(Do(st, step), key, token, began) {
      StepKeepsEntriesClean(st, step, token, began, key);
    }
    forall pid, p ensures !OldPending(Do(st, step), pid, p, token, began) {
      StepKeepsPendingClean(st, step, token, began, pid, p);
    }
  }

  lemma {:induction false} RunKeepsClean(states: seq<State>, steps: seq<Step>, token: Token, began: nat, from: nat, n: nat)
    requires Run(states, steps) && began <= from <= n < |states| && token in states[from].crowned
    requires !HoldsOld(states[from], token, began)
    ensures !HoldsOld(states[n], token, began) && token in states[n].crowned
    decreases n
  {
    hide Do, Enabled, HoldsOld, GotRecent, EntryInv, ReaderInv, InvalidatorTimes;
    CrownedIsKept(states, steps, token, from, n);
    if from < n {
      RunKeepsClean(states, steps, token, began, from, n - 1);
      RunStep(states, steps, n);
      StepKeepsClean(states[n - 1], steps[n - 1], token, began);
    }
  }

  // ---------------------------------------------------------------------------
  // A call that reads a clean token gets nothing old
  // ---------------------------------------------------------------------------

  /** What the call has got so far is recent, and it works under this token to its end. */
  ghost predicate GotRecent(st: State, q: Pid, token: Token, began: nat) {
    && q in st.readers && st.readers[q].generation == Some(token)
    && st.readers[q].pc != Peeking && !st.readers[q].initialize
    && forall k | 0 <= k < |st.readers[q].seen| :: began <= st.readers[q].seen[k].at
  }

  lemma NoSecondStart(st: State, step: Step)
    requires Enabled(st, step) && IsReaderStep(step) && step.pid in st.readers && st.readers[step.pid].pc != Peeking
    ensures !step.StartResolve? && !step.Peek?
  {
  }

  /** A call that has read a token works under it to its end. */
  lemma CallStays(st: State, step: Step)
    requires BaseInv(st) && Enabled(st, step) && IsReaderStep(step)
    requires step.pid in st.readers && st.readers[step.pid].pc != Peeking
    requires st.readers[step.pid].generation.Some? && !st.readers[step.pid].initialize
    ensures var r, r' := st.readers[step.pid], ReaderAfter(st, step);
            r'.generation == r.generation && r'.pc != Peeking && !r'.initialize
  {
    hide ReaderAfter, Floor;
    assert PcInv(st.readers[step.pid]) by {
      assert ReaderInv(st, st.readers[step.pid]);
    }
    NoSecondStart(st, step);
    ActingCallIsKept(st, step);
  }

  /** What a call gets in one step is an entry under its token, or read now. */
  lemma SeenEffect(st: State, step: Step)
    requires Enabled(st, step) && IsReaderStep(step) && !step.StartResolve? && !step.Peek?
    ensures var r, r' := st.readers[step.pid], ReaderAfter(st, step);
            || r'.seen == r.seen
            || (step.Read? && |r'.seen| == |r.seen| + 1 && r'.seen[..|r.seen|] == r.seen && r'.seen[|r.seen|].at == st.Now())
            || (step.Lookup?
                && var key := Key(r.slots[|r.seen|].source, r.generation.value);
                && key in st.entries && r'.seen == r.seen + [st.entries[key]])
  {
    AdvancingIsQuiet();
    hide Advance, Held, Floor;
  }

  lemma SeenStaysRecent(st: State, step: Step, token: Token, began: nat)
    requires Enabled(st, step) && IsReaderStep(step) && !step.StartResolve? && !step.Peek?
    requires st.readers[step.pid].generation == Some(token)
    requires began <= st.Now() && !HoldsOld(st, token, began)
    requires forall k | 0 <= k < |st.readers[step.pid].seen| :: began <= st.readers[step.pid].seen[k].at
    ensures var seen := ReaderAfter(st, step).seen; forall k | 0 <= k < |seen| :: began <= seen[k].at
  {
    var r, r' := st.readers[step.pid], ReaderAfter(st, step);
    SeenEffect(st, step);
    if r'.seen != r.seen {
      assert step.Lookup? ==> !OldEntry(st, Key(r.slots[|r.seen|].source, token), token, began);
      hide Enabled, ReaderAfter, HoldsOld;
      forall k | 0 <= k < |r'.seen| ensures began <= r'.seen[k].at {
        if k < |r.seen| {
          assert r'.seen[..|r.seen|][k] == r'.seen[k];
        }
      }
    }
  }

  lemma StepKeepsRecent(st: State, step: Step, q: Pid, token: Token, began: nat)
    requires BaseInv(st) && Enabled(st, step) && GotRecent(st, q, token, began)
    requires began <= st.Now() && !HoldsOld(st, token, began)
    ensures GotRecent(Do(st, step), q, token, began)
  {
    if IsReaderStep(step) && step.pid == q {
      hide Do, BaseInv, ReaderAfter, Enabled, HoldsOld;
      ActingReader(st, step);
      NoSecondStart(st, step);
      CallStays(st, step);
      SeenStaysRecent(st, step, token, began);
    } else {
      hide ReaderAfter, InvalidatorAfter, Enabled, Backend, BaseInv;
    }
  }

  lemma {:induction false} RunKeepsRecent(
      states: seq<State>, steps: seq<Step>, q: Pid, token: Token, began: nat, from: nat, n: nat)
    requires Run(states, steps) && began <= from <= n < |states| && token in states[from].crowned
    requires GotRecent(states[from], q, token, began) && !HoldsOld(states[from], token, began)
    ensures GotRecent(states[n], q, token, began)
    decreases n
  {
    hide Do, Enabled, HoldsOld, GotRecent, EntryInv, ReaderInv, InvalidatorTimes;
    if from < n {
      RunKeepsRecent(states, steps, q, token, began, from, n - 1);
      RunKeepsClean(states, steps, token, began, from, n - 1);
      RunStep(states, steps, n);
      StepKeepsRecent(states[n - 1], steps[n - 1], q, token, began);
    }
  }

  /**
    Whatever was invalidated or lost before: a call that reads a generation under which
    nothing old is held gets only readings since `began`. So does one that finds none.
   */
  lemma CleanPeekIsRecent(states: seq<State>, steps: seq<Step>, q: Pid, began: nat, peeked: nat, n: nat)
    requires Run(states, steps) && began <= peeked < n < |states|
    requires steps[peeked].Peek? && steps[peeked].pid == q
    requires states[peeked].current.Some? ==> !HoldsOld(states[peeked], states[peeked].current.value, began)
    ensures q in states[n].readers
    ensures forall k | 0 <= k < |states[n].readers[q].seen| :: began <= states[n].readers[q].seen[k].at
  {
    PeekBinds(states, steps, q, peeked);
    PeekIsRemembered(states, steps, q, peeked, n);
    RunKeepsBase(states, steps, n);
    assert ReaderInv(states[n], states[n].readers[q]);
    if states[peeked + 1].readers[q].generation.Some? {
      var token := states[peeked].current.value;
      AfterReadingToken(states, steps, q, began, peeked);
      RunKeepsClean(states, steps, token, began, peeked, peeked + 1);
      RunKeepsRecent(states, steps, q, token, began, peeked + 1, n);
    }
  }

  lemma AfterReadingToken(states: seq<State>, steps: seq<Step>, q: Pid, began: nat, peeked: nat)
    requires Run(states, steps) && peeked < |steps| && steps[peeked].Peek? && steps[peeked].pid == q
    requires q in states[peeked + 1].readers && states[peeked + 1].readers[q].generation.Some?
    ensures states[peeked].current == states[peeked + 1].readers[q].generation
    ensures states[peeked].current.value in states[peeked].crowned
    ensures GotRecent(states[peeked + 1], q, states[peeked].current.value, began)
  {
    hide Do, Enabled, EntryInv, ReaderInv, InvalidatorTimes;
    PeekBinds(states, steps, q, peeked);
    RunKeepsBase(states, steps, peeked);
  }

  /** A clean peek is transparent while the sources stay as they are. */
  lemma CleanPeekIsTransparent(states: seq<State>, steps: seq<Step>, q: Pid, began: nat, peeked: nat, n: nat)
    requires Run(states, steps) && began <= peeked < n < |states|
    requires steps[peeked].Peek? && steps[peeked].pid == q
    requires states[peeked].current.Some? ==> !HoldsOld(states[peeked], states[peeked].current.value, began)
    requires forall k | began <= k < n :: !steps[k].Change?
    requires q in states[n].readers
    requires states[n].readers[q].pc == Returned || states[n].readers[q].pc == NotFound
    ensures states[n].history != []
    ensures Answer(states[n].readers[q]) == FirstHit(SourcesAt(states[n]), states[n].readers[q].slots)
  {
    CleanPeekIsRecent(states, steps, q, began, peeked, n);
    Transparency(states, steps, q, began, n);
  }

  /** A confirmed invalidation leaves its successor clean, unless that was added with an old reading. */
  lemma InvalidationCleans(states: seq<State>, steps: seq<Step>, i: Pid, began: nat, verified: nat, n: nat, token: Token)
    requires Run(states, steps) && Invalidated(states, steps, i, began, verified) && verified < n < |states|
    requires states[n].current == Some(token) && !AddedWithOld(states, steps, token, began, n)
    ensures !HoldsOld(states[n], token, began)
  {
    RunKeepsBase(states, steps, n);
    DoneIsFresh(states, steps, i, began, verified, n);
    SinceIsExplained(states, steps, token, began, n);
    var st := states[n];
    forall key ensures !OldEntry(st, key, token, began) {
      assert key in st.entries ==> EntryInv(st, key, st.entries[key]);
    }
    forall pid, p ensures !OldPending(st, pid, p, token, began) {
      if pid in st.readers && p in Unstored(st.readers[pid]) {
        assert ReaderInv(st, st.readers[pid]);
        assert p in st.readers[pid].pending;
      }
    }
  }

  // ---------------------------------------------------------------------------
  // What is not clean can be served
  // ---------------------------------------------------------------------------

  /** A continuation of the run in which a call that reads this token later gets an old reading. */
  ghost predicate GetsOld(states: seq<State>, steps: seq<Step>, states': seq<State>, steps': seq<Step>,
                          token: Token, began: nat, q: Pid, peeked: nat)
  {
    && states <= states' && steps <= steps' && Run(states', steps')
    && |steps| <= peeked < |steps'| && steps'[peeked].Peek? && steps'[peeked].pid == q
    && states'[peeked].current == Some(token)
    && q in Last(states').readers
    && exists k :: 0 <= k < |Last(states').readers[q].seen| && Last(states').readers[q].seen[k].at < began
  }

  /** A process identifier that no call has used. */
  lemma {:induction false} UnusedPid(used: set<Pid>) returns (q: Pid)
    ensures forall p | p in used :: p < q
    decreases |used|
  {
    q := 0;
    if used != {} {
      var p :| p in used;
      var above := UnusedPid(used - {p});
      q := if p < above then above else p + 1;
      forall other | other in used ensures other < q {
        assert other == p || other in used - {p};
      }
    }
  }

  lemma RunLength(states: seq<State>, steps: seq<Step>)
    requires Run(states, steps)
    ensures |states| == |steps| + 1
  {
  }

  lemma Served(states: seq<State>, steps: seq<Step>, states': seq<State>, steps': seq<Step>,
               token: Token, began: nat, q: Pid, peeked: nat, reading: Reading)
    requires states <= states' && steps <= steps' && Run(states', steps')
    requires |steps| <= peeked < |steps'| && steps'[peeked] == Peek(q, true) && states'[peeked].current == Some(token)
    requires q in Last(states').readers && Last(states').readers[q].seen == [reading] && reading.at < began
    ensures GetsOld(states, steps, states', steps', token, began, q, peeked)
  {
    assert Last(states').readers[q].seen[0].at < began;
  }

  /** A new call for the source of an entry is answered with that entry. */
  lemma ServeEntry(states: seq<State>, steps: seq<Step>, token: Token, began: nat, key: Key)
    returns (states': seq<State>, steps': seq<Step>, q: Pid, peeked: nat)
    requires Run(states, steps) && Last(states).current == Some(token)
    requires OldEntry(Last(states), key, token, began)
    ensures GetsOld(states, steps, states', steps', token, began, q, peeked)
  {
    RunKeepsBase(states, steps, |steps|);
    var reading := Last(states).entries[key];
    assert EntryInv(Last(states), key, reading);
    q := UnusedPid(Last(states).readers.Keys);
    assert q !in Last(states).readers;
    var slot := Slot(key.source, true);
    assert key == Key(reading.source, token) && reading.at < began;
    hide Do, BaseInv, OldEntry, EntryInv, Held, TokensInv;
    states', steps' := StartCall(states, steps, q, [slot]);
    peeked := |steps| + 1;
    ghost var started := states';
    states', steps' := PeekToken(states', steps', q, slot, token);
    states', steps' := AnswerFromEntry(states', steps', q, token, reading);
    RunLength(started, steps + [StartResolve(q, [slot], Raise)]);
    assert states'[peeked] == Last(started);
    Served(states, steps, states', steps', token, began, q, peeked, reading);
  }

  /** One undisturbed publication is confirmed, and the resolver goes on to the next. */
  lemma ConfirmFirst(states: seq<State>, steps: seq<Step>, r: Pid, token: Token)
    returns (states': seq<State>, steps': seq<Step>)
    requires Run(states, steps) && Last(states).current == Some(token) && r in Last(states).readers
    requires Last(states).readers[r].pc == Confirming && Last(states).readers[r].generation == Some(token)
    requires |Last(states).readers[r].pending| > 1
    ensures states <= states' && Run(states', steps') && steps' == steps + [Confirm(r, true)]
    ensures Last(states').current == Some(token) && r in Last(states').readers
    ensures var reader := Last(states).readers[r];
            Last(states').readers[r] == reader.(pending := reader.pending[1..], pc := Storing)
  {
    RunKeepsBase(states, steps, |steps|);
    states', steps' := Extend(states, steps, Confirm(r, true));
  }

  lemma DiscardFirst(states: seq<State>, steps: seq<Step>, r: Pid, token: Token)
    returns (states': seq<State>, steps': seq<Step>)
    requires Run(states, steps) && Last(states).current == Some(token) && r in Last(states).readers
    requires Last(states).readers[r].pc == Discarding(false) && Last(states).readers[r].generation == Some(token)
    requires |Last(states).readers[r].pending| > 1
    ensures states <= states' && Run(states', steps') && steps' == steps + [Discard(r, true, true)]
    ensures Last(states').current == Some(token) && r in Last(states').readers
    ensures var reader := Last(states).readers[r];
            Last(states').readers[r] == reader.(pending := reader.pending[1..], pc := Storing)
  {
    RunKeepsBase(states, steps, |steps|);
    states', steps' := Extend(states, steps, Discard(r, true, true));
  }

  lemma StoreOne(states: seq<State>, steps: seq<Step>, r: Pid, token: Token)
    returns (states': seq<State>, steps': seq<Step>)
    requires Run(states, steps) && r in Last(states).readers && Last(states).current == Some(token)
    requires Last(states).readers[r].pc == Storing && Last(states).readers[r].generation == Some(token)
    requires Last(states).readers[r].pending != []
    ensures states <= states' && Run(states', steps') && steps' == steps + [Store(r, true, true)]
    ensures Last(states').current == Some(token) && r in Last(states').readers
    ensures Last(states').readers[r] == Last(states).readers[r].(pc := Confirming)
    ensures var reading := Last(states).readers[r].pending[0];
            && Key(reading.source, token) in Last(states').entries
            && Last(states').entries[Key(reading.source, token)] == reading
  {
    RunKeepsBase(states, steps, |steps|);
    states', steps' := Extend(states, steps, Store(r, true, true));
  }

  /** A resolver that nothing disturbs stores each of its readings in turn. */
  lemma {:induction false} StoreUpTo(states: seq<State>, steps: seq<Step>, r: Pid, token: Token, k: nat)
    returns (states': seq<State>, steps': seq<Step>)
    requires Run(states, steps) && Last(states).current == Some(token) && r in Last(states).readers
    requires Last(states).readers[r].pc == Storing && Last(states).readers[r].generation == Some(token)
    requires k < |Last(states).readers[r].pending|
    ensures states <= states' && steps <= steps' && Run(states', steps') && Last(states').current == Some(token)
    ensures var reading := Last(states).readers[r].pending[k];
            && Key(reading.source, token) in Last(states').entries
            && Last(states').entries[Key(reading.source, token)] == reading
    decreases k
  {
    RunLength(states, steps);
    hide Run;
    states', steps' := StoreOne(states, steps, r, token);
    if k > 0 {
      states', steps' := ConfirmFirst(states', steps', r, token);
      states', steps' := StoreUpTo(states', steps', r, token, k - 1);
    }
  }

  /** A resolver with an old reading to store comes to store it. */
  lemma StorePending(states: seq<State>, steps: seq<Step>, r: Pid, token: Token, k: nat)
    returns (states': seq<State>, steps': seq<Step>)
    requires Run(states, steps) && Last(states).current == Some(token) && r in Last(states).readers
    requires Last(states).readers[r].generation == Some(token) && k < |Unstored(Last(states).readers[r])|
    ensures states <= states' && steps <= steps' && Run(states', steps') && Last(states').current == Some(token)
    ensures var reading := Unstored(Last(states).readers[r])[k];
            && Key(reading.source, token) in Last(states').entries
            && Last(states').entries[Key(reading.source, token)] == reading
  {
    RunLength(states, steps);
    hide Run;
    match Last(states).readers[r].pc {
      case Storing => states', steps' := StoreUpTo(states, steps, r, token, k);
      case Confirming =>
        states', steps' := ConfirmFirst(states, steps, r, token);
        states', steps' := StoreUpTo(states', steps', r, token, k);
      case Discarding(_) =>
        states', steps' := DiscardFirst(states, steps, r, token);
        states', steps' := StoreUpTo(states', steps', r, token, k);
    }
  }

  lemma ServeOld(states: seq<State>, steps: seq<Step>, token: Token, began: nat)
    returns (states': seq<State>, steps': seq<Step>, q: Pid, peeked: nat)
    requires Run(states, steps) && Last(states).current == Some(token) && HoldsOld(Last(states), token, began)
    ensures GetsOld(states, steps, states', steps', token, began, q, peeked)
  {
    RunLength(states, steps);
    hide Run;
    if key :| OldEntry(Last(states), key, token, began) {
      states', steps', q, peeked := ServeEntry(states, steps, token, began, key);
    } else {
      var r, reading :| OldPending(Last(states), r, reading, token, began);
      var k: nat :| k < |Unstored(Last(states).readers[r])| && Unstored(Last(states).readers[r])[k] == reading;
      ghost var stored, upTo := StorePending(states, steps, r, token, k);
      assert OldEntry(Last(stored), Key(reading.source, token), token, began);
      states', steps', q, peeked := ServeEntry(stored, upTo, token, began, Key(reading.source, token));
    }
  }

  lemma OldIsHeld(states: seq<State>, steps: seq<Step>, states': seq<State>, steps': seq<Step>,
                  token: Token, began: nat, q: Pid, peeked: nat)
    requires Run(states, steps) && Last(states).current == Some(token) && began <= |steps|
    requires GetsOld(states, steps, states', steps', token, began, q, peeked)
    ensures HoldsOld(Last(states), token, began)
  {
    if !HoldsOld(Last(states), token, began) {
      assert states'[|steps|] == Last(states);
      RunKeepsBase(states, steps, |steps|);
      RunKeepsClean(states', steps', token, began, |steps|, peeked);
      CleanPeekIsRecent(states', steps', q, began, peeked, |steps'|);
      assert false;
    }
  }

  /**
    From any state that a run can reach, with a generation: a call that reads this
    generation from now on can get a reading from before `began` if and only if the
    store holds one under it, or a resolver that works under it may still store one.
   */
  lemma OldReadingsIff(states: seq<State>, steps: seq<Step>, token: Token, began: nat)
    requires Run(states, steps) && Last(states).current == Some(token) && began <= |steps|
    ensures HoldsOld(Last(states), token, began) <==>
            exists states', steps', q, peeked :: GetsOld(states, steps, states', steps', token, began, q, peeked)
  {
    RunLength(states, steps);
    hide Run, HoldsOld, GetsOld;
    if HoldsOld(Last(states), token, began) {
      var states', steps', q, peeked := ServeOld(states, steps, token, began);
    }
    forall states', steps', q: Pid, peeked: nat | GetsOld(states, steps, states', steps', token, began, q, peeked)
      ensures HoldsOld(Last(states), token, began)
    {
      OldIsHeld(states, steps, states', steps', token, began, q, peeked);
    }
  }
}
