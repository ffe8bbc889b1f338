/**
  What a call of `resolve` comes to when nothing disturbs it: no other process acts, no
  operation fails and nothing expires. It ends, it answers what the cache and the sources
  hold, and it leaves in the store exactly what it read and may keep.
 */
module UndisturbedCalls {
  import opened CacheProtocol
  import opened Resolving
  import opened Wrappers

  /** An own operation of the call that does not fail; `safe` says which sources may be cached. */
  predicate Smooth(st: State, step: Step, q: Pid, safe: Source -> bool) {
    IsOf(step, q) &&
    match step
    case Peek(_, ok) => ok
    case Lookup(_, ok) => ok
    case Read(_, up, s) =>
      && up && q in st.readers && |st.readers[q].seen| < |st.readers[q].slots|
      && s == safe(st.readers[q].slots[|st.readers[q].seen|].source)
    case Store(_, applied, ok) => applied && ok
    case Confirm(_, ok) => ok
    case AddInitial(_, _, outcome) => outcome == Added
    case StartResolve(_, _, _) => true
    case _ => false
  }

  /** Nothing but own operations that do not fail, at most `most` of them, lie between the runs. */
  ghost predicate Smoothly(states: seq<State>, steps: seq<Step>, states': seq<State>, steps': seq<Step>,
                           q: Pid, safe: Source -> bool, most: nat)
  {
    && states <= states' && steps <= steps' && Run(states', steps') && |steps'| <= |steps| + most
    && |states'| == |steps'| + 1
    && forall k | |steps| <= k < |steps'| :: Smooth(states'[k], steps'[k], q, safe)
  }

  lemma SmoothlyOn(s0: seq<State>, t0: seq<Step>, s1: seq<State>, t1: seq<Step>, s2: seq<State>, t2: seq<Step>,
                   q: Pid, safe: Source -> bool, m: nat, n: nat)
    requires Smoothly(s0, t0, s1, t1, q, safe, m) && Smoothly(s1, t1, s2, t2, q, safe, n)
    ensures Smoothly(s0, t0, s2, t2, q, safe, m + n)
  {
    hide Run, Smooth;
    forall k | |t0| <= k < |t2| ensures Smooth(s2[k], t2[k], q, safe) {
      if k < |t1| {
        assert t2[k] == t1[k] && s2[k] == s1[k];
      }
    }
  }

  /** What the source of a slot is seen to hold: the entry under the token, else what it holds now. */
  function Shown(st: State, slot: Slot, token: Token): Value
    requires st.history != []
  {
    if slot.cached && Key(slot.source, token) in st.entries then st.entries[Key(slot.source, token)].value
    else Held(SourcesAt(st), slot.source)
  }

  /** The first template that is seen. */
  function FirstShown(st: State, slots: seq<Slot>, token: Token): Value
    requires st.history != []
  {
    if slots == [] then Missing
    else if Shown(st, slots[0], token).Found? then Shown(st, slots[0], token)
    else FirstShown(st, slots[1..], token)
  }

  /** The slot is asked, and what is read from its source is to be kept. */
  predicate Kept(slot: Slot, safe: Source -> bool) { slot.cached && safe(slot.source) }

  // ---------------------------------------------------------------------------
  // Single operations
  // ---------------------------------------------------------------------------

  /** The state after an operation that leaves the backend alone. */
  function Quiet(st: State, q: Pid, r: Reader): State
    requires st.history != []
  {
    st.(readers := st.readers[q := r], history := st.history + [SourcesAt(st)])
  }

  lemma QuietDo(st: State, step: Step)
    requires Enabled(st, step)
    requires step.StartResolve? || step.Peek? || step.Lookup? || step.Read? || step.Confirm?
    ensures Do(st, step) == Quiet(st, step.pid, ReaderAfter(st, step))
  {
    hide ReaderAfter;
  }

  lemma StoreDo(st: State, q: Pid)
    requires Enabled(st, Store(q, true, true))
    ensures var r := st.readers[q];
            Do(st, Store(q, true, true)) ==
            Quiet(st, q, r.(pc := Confirming)).(entries := st.entries[PendingKey(r) := r.pending[0]])
  {
  }

  lemma AddDo(st: State, q: Pid, token: Token)
    requires Enabled(st, AddInitial(q, token, Added))
    ensures var r, st' := st.readers[q], Do(st, AddInitial(q, token, Added));
            && st'.current == Some(token) && st'.entries == st.entries && st'.issued == st.issued + {token}
            && st'.readers == st.readers[q := r.(generation := Some(token), pending := r.initial, pc := Storing)]
            && st'.history == st.history + [SourcesAt(st)]
  {
  }

  /** Where a call goes on: found, every source missed, or the next source. */
  function Onward(r: Reader): ReaderPc {
    if r.seen != [] && r.seen[|r.seen| - 1].value.Found? then Returned
    else if |r.seen| >= |r.slots| then NotFound
    else Looking
  }

  lemma AdvanceIs(r: Reader)
    ensures Advance(r) == r.(pc := Onward(r))
  {
  }

  /** What is read from the next source now. */
  function Now(st: State, r: Reader): Reading
    requires st.history != [] && |r.seen| < |r.slots|
  {
    var source := r.slots[|r.seen|].source;
    Reading(source, Held(SourcesAt(st), source), st.Now())
  }

  lemma OneStep(states: seq<State>, steps: seq<Step>, step: Step, q: Pid, safe: Source -> bool)
    returns (states': seq<State>, steps': seq<Step>)
    requires Run(states, steps) && Enabled(Last(states), step) && Smooth(Last(states), step, q, safe)
    ensures Smoothly(states, steps, states', steps', q, safe, 1)
    ensures Last(states') == Do(Last(states), step) && steps' == steps + [step]
  {
    states', steps' := Extend(states, steps, step);
    RunLength(states, steps);
    RunLength(states', steps');
    hide Run, Enabled, Do, Smooth;
    assert states'[|steps|] == Last(states);
  }

  lemma RunLength(states: seq<State>, steps: seq<Step>)
    requires Run(states, steps)
    ensures |states| == |steps| + 1
  {
  }

  // ---------------------------------------------------------------------------
  // One source
  // ---------------------------------------------------------------------------

  function With(r: Reader, x: Reading): Reader {
    var more := r.(seen := r.seen + [x]);
    more.(pc := Onward(more))
  }

  /** A read that is not to be stored. */
  lemma ReadPlainly(st: State, r: Reader, s: bool)
    requires st.history != [] && |r.seen| < |r.slots| && !r.initialize && (r.pc == Fetching(true) ==> !s)
    ensures AfterRead(st, r, true, s) == With(r, Now(st, r))
  {
    AdvanceIs(r.(seen := r.seen + [Now(st, r)]));
    hide Advance, Onward, Held;
  }

  lemma ReadToStore(st: State, r: Reader)
    requires st.history != [] && |r.seen| < |r.slots| && !r.initialize && r.pc == Fetching(true)
    ensures AfterRead(st, r, true, true) ==
            r.(seen := r.seen + [Now(st, r)], pending := [Now(st, r)], pc := Storing)
  {
    hide Advance, Held;
  }

  lemma LookupIs(st: State, r: Reader)
    requires |r.seen| < |r.slots| && AsksCache(r)
    ensures var key := Key(r.slots[|r.seen|].source, r.generation.value);
            AfterLookup(st, r, true) ==
            if key in st.entries then With(r, st.entries[key]) else r.(pc := Fetching(true))
  {
    var key := Key(r.slots[|r.seen|].source, r.generation.value);
    if key in st.entries {
      AdvanceIs(r.(seen := r.seen + [st.entries[key]]));
    }
    hide Advance, Onward;
  }

  /** A confirmed publication: the next one, or on with the call. */
  lemma ConfirmIs(st: State, r: Reader)
    requires r.pending != [] && st.current.Some? && st.current == r.generation
    ensures var rest := r.(pending := r.pending[1..]);
            AfterConfirm(st, r, true) == rest.(pc := if rest.pending == [] then Onward(rest) else Storing)
  {
    AdvanceIs(r.(pending := r.pending[1..]));
    hide Advance, Onward;
  }

  /** One source has been asked and gave `x`; the store may have changed. */
  ghost predicate Asked(st: State, st': State, q: Pid, x: Reading)
    requires q in st.readers
  {
    && st'.current == st.current && st'.issued == st.issued
    && st.history != [] && st'.history != [] && SourcesAt(st') == SourcesAt(st)
    && st'.readers == st.readers[q := With(st.readers[q], x)]
  }

  /** The call is about to ask its next source, under a generation that is there. */
  ghost predicate AsksUnder(st: State, q: Pid, token: Token) {
    && st.history != [] && q in st.readers && st.current == Some(token)
    && st.readers[q].pc == Looking && |st.readers[q].seen| < |st.readers[q].slots|
    && st.readers[q].generation == Some(token) && !st.readers[q].initialize && st.readers[q].pending == []
  }

  function NextSlot(st: State, q: Pid): Slot
    requires q in st.readers && |st.readers[q].seen| < |st.readers[q].slots|
  {
    st.readers[q].slots[|st.readers[q].seen|]
  }

  lemma AskUncached(states: seq<State>, steps: seq<Step>, q: Pid, token: Token, safe: Source -> bool)
    returns (states': seq<State>, steps': seq<Step>)
    requires Run(states, steps) && AsksUnder(Last(states), q, token) && !NextSlot(Last(states), q).cached
    ensures Smoothly(states, steps, states', steps', q, safe, 1)
    ensures Asked(Last(states), Last(states'), q, Now(Last(states), Last(states).readers[q]))
    ensures Last(states').entries == Last(states).entries
  {
    var st := Last(states);
    var step := Read(q, true, safe(NextSlot(st, q).source));
    ReadPlainly(st, st.readers[q], step.safe);
    QuietDo(st, step);
    hide Do, AfterRead, With, Held;
    states', steps' := OneStep(states, steps, step, q, safe);
  }

  lemma AskCache(states: seq<State>, steps: seq<Step>, q: Pid, token: Token, safe: Source -> bool)
    returns (states': seq<State>, steps': seq<Step>)
    requires Run(states, steps) && AsksUnder(Last(states), q, token) && NextSlot(Last(states), q).cached
    ensures Smoothly(states, steps, states', steps', q, safe, 1)
    ensures var st, st' := Last(states), Last(states');
            var key := Key(NextSlot(st, q).source, token);
            && (key in st.entries ==> Asked(st, st', q, st.entries[key]) && st'.entries == st.entries)
            && (key !in st.entries ==> st' == Quiet(st, q, st.readers[q].(pc := Fetching(true))))
  {
    var st := Last(states);
    LookupIs(st, st.readers[q]);
    QuietDo(st, Lookup(q, true));
    hide Do, AfterLookup, With;
    states', steps' := OneStep(states, steps, Lookup(q, true), q, safe);
  }

  // ---------------------------------------------------------------------------
  // Storing
  // ---------------------------------------------------------------------------

  /** The store once these readings are put under the token, in their order. */
  function Stored(entries: map<Key, Reading>, readings: seq<Reading>, token: Token): map<Key, Reading>
    decreases |readings|
  {
    if readings == [] then entries
    else Stored(entries[Key(readings[0].source, token) := readings[0]], readings[1..], token)
  }

  /** The call is about to store, under a generation that is there. */
  ghost predicate StoresUnder(st: State, q: Pid, token: Token) {
    && st.history != [] && q in st.readers && st.current == Some(token)
    && st.readers[q].pc == Storing && st.readers[q].generation == Some(token) && st.readers[q].pending != []
  }

  /** One publication, set and confirmed. */
  lemma StoreOne(states: seq<State>, steps: seq<Step>, q: Pid, token: Token, safe: Source -> bool)
    returns (states': seq<State>, steps': seq<Step>)
    requires Run(states, steps) && StoresUnder(Last(states), q, token)
    ensures Smoothly(states, steps, states', steps', q, safe, 2)
    ensures var st, st' := Last(states), Last(states');
            var r := st.readers[q];
            var rest := r.(pending := r.pending[1..]);
            && st'.current == st.current && st'.issued == st.issued
            && st'.history != [] && SourcesAt(st') == SourcesAt(st)
            && st'.entries == st.entries[Key(r.pending[0].source, token) := r.pending[0]]
            && st'.readers == st.readers[q := rest.(pc := if rest.pending == [] then Onward(rest) else Storing)]
  {
    var st := Last(states);
    StoreDo(st, q);
    ghost var s1, t1 := OneStep(states, steps, Store(q, true, true), q, safe);
    ConfirmIs(Last(s1), Last(s1).readers[q]);
    QuietDo(Last(s1), Confirm(q, true));
    RunOf(states, steps, s1, t1, q, safe, 1);
    hide Do, AfterConfirm, Onward, Run;
    states', steps' := OneStep(s1, t1, Confirm(q, true), q, safe);
    SmoothlyOn(states, steps, s1, t1, states', steps', q, safe, 1, 1);
  }

  lemma {:induction false} StoreAll(states: seq<State>, steps: seq<Step>, q: Pid, token: Token, safe: Source -> bool)
    returns (states': seq<State>, steps': seq<Step>)
    requires Run(states, steps) && StoresUnder(Last(states), q, token)
    ensures Smoothly(states, steps, states', steps', q, safe, 2 * |Last(states).readers[q].pending|)
    ensures var st, st' := Last(states), Last(states');
            var r := st.readers[q];
            && st'.current == st.current && st'.issued == st.issued
            && st'.history != [] && SourcesAt(st') == SourcesAt(st)
            && st'.entries == Stored(st.entries, r.pending, token)
            && st'.readers == st.readers[q := r.(pending := [], pc := Onward(r))]
    decreases |Last(states).readers[q].pending|
  {
    RunLength(states, steps);
    hide Run, Onward, Stored;
    var st := Last(states);
    var r := st.readers[q];
    OnwardIgnores(r, r.pending[1..], r.pc);
    StoredFirst(st.entries, r.pending, token);
    states', steps' := StoreOne(states, steps, q, token, safe);
    if |r.pending| == 1 {
      assert r.pending[1..] == [];
    } else {
      ghost var s1, t1 := states', steps';
      OnwardIgnores(r, r.pending[1..], Storing);
      states', steps' := StoreAll(s1, t1, q, token, safe);
      SmoothlyOn(states, steps, s1, t1, states', steps', q, safe, 2, 2 * |r.pending[1..]|);
    }
  }

  lemma OnwardIgnores(r: Reader, pending: seq<Reading>, pc: ReaderPc)
    ensures Onward(r.(pending := pending)) == Onward(r) == Onward(r.(pending := pending, pc := pc))
  {
  }

  lemma StoredFirst(entries: map<Key, Reading>, readings: seq<Reading>, token: Token)
    requires readings != []
    ensures Stored(entries, readings, token)
            == Stored(entries[Key(readings[0].source, token) := readings[0]], readings[1..], token)
    ensures Stored(entries, [], token) == entries
    ensures |readings| == 1 ==> Stored(entries, readings, token) == entries[Key(readings[0].source, token) := readings[0]]
  {
  }

  // ---------------------------------------------------------------------------
  // One source, the store included
  // ---------------------------------------------------------------------------

  /** The source is read behind a miss in the cache. */
  lemma ReadBehindMiss(states: seq<State>, steps: seq<Step>, q: Pid, safe: Source -> bool)
    returns (states': seq<State>, steps': seq<Step>)
    requires Run(states, steps) && Last(states).history != [] && q in Last(states).readers
    requires var r := Last(states).readers[q];
             r.pc == Fetching(true) && !r.initialize && |r.seen| < |r.slots|
    ensures Smoothly(states, steps, states', steps', q, safe, 1)
    ensures var st := Last(states);
            var r := st.readers[q];
            Last(states') ==
            Quiet(st, q, if safe(r.slots[|r.seen|].source)
                         then r.(seen := r.seen + [Now(st, r)], pending := [Now(st, r)], pc := Storing)
                         else With(r, Now(st, r)))
  {
    var st := Last(states);
    var r := st.readers[q];
    var step := Read(q, true, safe(r.slots[|r.seen|].source));
    QuietDo(st, step);
    assert Enabled(st, step);
    if step.safe {
      ReadToStore(st, r);
    } else {
      ReadPlainly(st, r, false);
    }
    hide Do, AfterRead, Held, Run, Enabled, With;
    states', steps' := OneStep(states, steps, step, q, safe);
  }

  /** The source is read behind a miss in the cache, and the reading stored if it may be. */
  lemma AskSource(states: seq<State>, steps: seq<Step>, q: Pid, token: Token, safe: Source -> bool, before: State)
    returns (states': seq<State>, steps': seq<Step>)
    requires Run(states, steps) && AsksUnder(before, q, token) && NextSlot(before, q).cached
    requires Last(states) == Quiet(before, q, before.readers[q].(pc := Fetching(true)))
    ensures Smoothly(states, steps, states', steps', q, safe, 3)
    ensures var st, st' := Last(states), Last(states');
            var x := Now(st, st.readers[q]);
            && Asked(before, st', q, x)
            && st'.entries == before.entries
                 + (if safe(NextSlot(before, q).source) then map[Key(x.source, token) := x] else map[])
  {
    RunLength(states, steps);
    hide Held, Run, Onward, Stored, Asked;
    var st := Last(states);
    var r := st.readers[q];
    var x := Now(st, r);
    states', steps' := ReadBehindMiss(states, steps, q, safe);
    if safe(NextSlot(before, q).source) {
      ghost var s1, t1 := states', steps';
      RunOf(states, steps, s1, t1, q, safe, 1);
      StoredFirst(st.entries, [x], token);
      states', steps' := StoreAll(s1, t1, q, token, safe);
      SmoothlyOn(states, steps, s1, t1, states', steps', q, safe, 1, 2);
      OnwardIgnores(r.(seen := r.seen + [x]), [x], Storing);
    } else {
      Longer(states, steps, states', steps', q, safe, 1, 3);
    }
    AskedIs(before, st, Last(states'), q, x);
  }

  lemma AskedIs(before: State, st: State, st': State, q: Pid, x: Reading)
    requires before.history != [] && q in before.readers
    requires st == Quiet(before, q, before.readers[q].(pc := Fetching(true)))
    requires st'.current == before.current && st'.issued == before.issued
    requires st'.history != [] && SourcesAt(st') == SourcesAt(st)
    requires st'.readers == st.readers[q := With(st.readers[q], x)]
    ensures Asked(before, st', q, x)
  {
    OnwardIgnores(before.readers[q].(seen := before.readers[q].seen + [x]), before.readers[q].pending, Fetching(true));
    hide Onward;
  }

  lemma RunOf(states: seq<State>, steps: seq<Step>, states': seq<State>, steps': seq<Step>,
              q: Pid, safe: Source -> bool, most: nat)
    requires Smoothly(states, steps, states', steps', q, safe, most)
    ensures Run(states', steps')
  {
  }

  lemma Longer(states: seq<State>, steps: seq<Step>, states': seq<State>, steps': seq<Step>,
               q: Pid, safe: Source -> bool, most: nat, more: nat)
    requires Smoothly(states, steps, states', steps', q, safe, most) && most <= more
    ensures Smoothly(states, steps, states', steps', q, safe, more)
  {
  }

  /** One source was asked: it gave what is shown, which is kept if it was read and may be. */
  ghost predicate AskedOnce(st: State, st': State, q: Pid, token: Token, safe: Source -> bool, x: Reading)
    requires q in st.readers && |st.readers[q].seen| < |st.readers[q].slots| && st.history != []
  {
    var slot := NextSlot(st, q);
    var key := Key(slot.source, token);
    && Asked(st, st', q, x)
    && x.source == slot.source && x.value == Shown(st, slot, token)
    && st'.entries == st.entries + (if Kept(slot, safe) && key !in st.entries then map[key := x] else map[])
    && (slot.cached && key !in st.entries ==> x.value == Held(SourcesAt(st), slot.source))
  }

  lemma AskOne(states: seq<State>, steps: seq<Step>, q: Pid, token: Token, safe: Source -> bool)
    returns (states': seq<State>, steps': seq<Step>, x: Reading)
    requires Run(states, steps) && AsksUnder(Last(states), q, token) && StoreInv(Last(states))
    ensures Smoothly(states, steps, states', steps', q, safe, 4)
    ensures AskedOnce(Last(states), Last(states'), q, token, safe, x)
  {
    var st, slot := Last(states), NextSlot(Last(states), q);
    var key := Key(slot.source, token);
    if !slot.cached {
      states', steps' := AskUncached(states, steps, q, token, safe);
      Longer(states, steps, states', steps', q, safe, 1, 4);
      x := Now(st, st.readers[q]);
    } else {
      states', steps' := AskCache(states, steps, q, token, safe);
      hide Run, Onward, With, Held;
      if key in st.entries {
        assert EntryInv(st, key, st.entries[key]);
        Longer(states, steps, states', steps', q, safe, 1, 4);
        x := st.entries[key];
      } else {
        ghost var s1, t1 := states', steps';
        RunOf(states, steps, s1, t1, q, safe, 1);
        states', steps' := AskSource(s1, t1, q, token, safe, st);
        SmoothlyOn(states, steps, s1, t1, states', steps', q, safe, 1, 3);
        x := Now(Last(s1), Last(s1).readers[q]);
      }
    }
  }

  // ---------------------------------------------------------------------------
  // All sources, under a generation that is there
  // ---------------------------------------------------------------------------

  /**
    The entries are those of `st` and, under the token, one for each of the first slots
    that is to be kept; each new one holds what its source holds.
   */
  ghost predicate KeptExactly(st: State, entries: map<Key, Reading>, slots: seq<Slot>, from: nat, to: nat,
                              token: Token, safe: Source -> bool)
    requires from <= to <= |slots| && st.history != []
  {
    && (forall key :: key in entries <==>
          key in st.entries
          || (key.token == token && exists k :: from <= k < to && Kept(slots[k], safe) && slots[k].source == key.source))
    && (forall key | key in st.entries :: entries[key] == st.entries[key])
    && (forall key | key in entries && key !in st.entries ::
          entries[key].source == key.source && entries[key].value == Held(SourcesAt(st), key.source))
  }

  /** What the call has got since it had asked `from` slots is what is shown of them, until one is found. */
  ghost predicate GotShown(st: State, r: Reader, from: nat, token: Token)
    requires st.history != []
  {
    && from <= |r.seen| <= |r.slots|
    && (forall k | from <= k < |r.seen| :: r.seen[k].value == Shown(st, r.slots[k], token))
    && (forall k | from <= k < |r.seen| - 1 :: r.seen[k].value == Missing)
  }

  /** The call has ended: with a template, or with every source asked and missed. */
  ghost predicate Ended(r: Reader) {
    && (r.pc == Returned || r.pc == NotFound)
    && (r.pc == Returned <==> r.seen != [] && r.seen[|r.seen| - 1].value.Found?)
    && (r.pc == NotFound ==> |r.seen| == |r.slots|)
  }

  ghost predicate Later(st: State, st': State) {
    && st.history != [] && st'.history != [] && SourcesAt(st') == SourcesAt(st)
    && st'.current == st.current && st'.issued == st.issued
  }

  /** What was stored in between shows nothing else. */
  lemma ShownStays(st: State, st': State, key: Key, x: Reading, slot: Slot, token: Token)
    requires Later(st, st') && key.token == token && key !in st.entries
    requires st'.entries == st.entries[key := x] && x.value == Held(SourcesAt(st), key.source)
    ensures Shown(st', slot, token) == Shown(st, slot, token)
  {
    hide Held;
  }

  lemma KeptMore(st: State, st1: State, slots: seq<Slot>, k: nat, to: nat, token: Token, safe: Source -> bool,
                 x: Reading, entries: map<Key, Reading>)
    requires k < to <= |slots| && Later(st, st1)
    requires var key := Key(slots[k].source, token);
             && x.source == slots[k].source
             && (slots[k].cached && key !in st.entries ==> x.value == Held(SourcesAt(st), slots[k].source))
             && st1.entries == st.entries + (if Kept(slots[k], safe) && key !in st.entries then map[key := x] else map[])
    requires KeptExactly(st1, entries, slots, k + 1, to, token, safe)
    ensures KeptExactly(st, entries, slots, k, to, token, safe)
  {
    hide Held;
    forall key | key in entries && key !in st.entries
      ensures key.token == token && exists j :: k <= j < to && Kept(slots[j], safe) && slots[j].source == key.source
    {
      if key in st1.entries {
        assert Kept(slots[k], safe) && slots[k].source == key.source;
      }
    }
    forall j, key: Key | k <= j < to && Kept(slots[j], safe) && key == Key(slots[j].source, token) ensures key in entries {
      if j == k {
        assert key in st1.entries;
      }
    }
  }

  lemma NothingKept(st: State, slots: seq<Slot>, n: nat, token: Token, safe: Source -> bool)
    requires n <= |slots| && st.history != []
    ensures KeptExactly(st, st.entries, slots, n, n, token, safe)
  {
  }

  /** The sources were asked in turn until one had the template. */
  ghost predicate AllAsked(st: State, st': State, q: Pid, token: Token, safe: Source -> bool)
    requires q in st.readers && st.history != []
  {
    var r := st.readers[q];
    && Later(st, st') && q in st'.readers && st'.readers[q].slots == r.slots
    && r.seen <= st'.readers[q].seen && Ended(st'.readers[q]) && GotShown(st, st'.readers[q], |r.seen|, token)
    && KeptExactly(st, st'.entries, r.slots, |r.seen|, |st'.readers[q].seen|, token, safe)
  }

  /** The last source that is asked. */
  lemma AskedLast(st: State, st': State, q: Pid, token: Token, safe: Source -> bool, x: Reading)
    requires AsksUnder(st, q, token) && AskedOnce(st, st', q, token, safe, x) && st'.readers[q].pc != Looking
    ensures AllAsked(st, st', q, token, safe)
  {
    NothingKept(st', st.readers[q].slots, |st.readers[q].seen| + 1, token, safe);
    KeptMore(st, st', st.readers[q].slots, |st.readers[q].seen|, |st.readers[q].seen| + 1, token, safe, x, st'.entries);
    hide KeptExactly, Shown, Kept, Held;
  }

  /** After one source every slot shows what it showed before. */
  lemma ShownAfterOne(st: State, st1: State, q: Pid, token: Token, safe: Source -> bool, x: Reading, slot: Slot)
    requires AsksUnder(st, q, token) && AskedOnce(st, st1, q, token, safe, x)
    ensures Shown(st1, slot, token) == Shown(st, slot, token)
  {
    hide Held, With;
    var key := Key(NextSlot(st, q).source, token);
    if Kept(NextSlot(st, q), safe) && key !in st.entries {
      ShownStays(st, st1, key, x, slot, token);
    } else {
      SameShown(st, st1, slot, token);
    }
  }

  lemma KeptAfterOne(st: State, st1: State, st': State, q: Pid, token: Token, safe: Source -> bool, x: Reading)
    requires AsksUnder(st, q, token) && AskedOnce(st, st1, q, token, safe, x) && AllAsked(st1, st', q, token, safe)
    ensures KeptExactly(st, st'.entries, st.readers[q].slots, |st.readers[q].seen|, |st'.readers[q].seen|, token, safe)
  {
    hide KeptExactly, Held, Shown;
    var r := st.readers[q];
    KeptMore(st, st1, r.slots, |r.seen|, |st'.readers[q].seen|, token, safe, x, st'.entries);
  }

  /** One source, and then all others. */
  lemma AskedMore(st: State, st1: State, st': State, q: Pid, token: Token, safe: Source -> bool, x: Reading)
    requires AsksUnder(st, q, token) && AskedOnce(st, st1, q, token, safe, x) && x.value == Missing
    requires AllAsked(st1, st', q, token, safe)
    ensures AllAsked(st, st', q, token, safe)
  {
    hide KeptExactly, Held, Shown, Kept, Ended;
    var r, seen := st.readers[q], st'.readers[q].seen;
    KeptAfterOne(st, st1, st', q, token, safe, x);
    forall k | |r.seen| <= k < |seen| ensures seen[k].value == Shown(st, r.slots[k], token) {
      ShownAfterOne(st, st1, q, token, safe, x, r.slots[k]);
      if k == |r.seen| {
        assert seen[k] == st1.readers[q].seen[k];
      }
    }
  }

  /** After one source: whether the call goes on, and with what. */
  lemma GoesOn(st: State, st1: State, q: Pid, token: Token, safe: Source -> bool, x: Reading)
    requires AsksUnder(st, q, token) && AskedOnce(st, st1, q, token, safe, x)
    requires forall k | 0 <= k < |st.readers[q].seen| :: st.readers[q].seen[k].value == Missing
    ensures q in st1.readers && |st1.readers[q].seen| == |st.readers[q].seen| + 1
    ensures st1.readers[q].slots == st.readers[q].slots
    ensures st1.readers[q].pc == Looking ==>
              && AsksUnder(st1, q, token) && x.value == Missing
              && forall k | 0 <= k < |st1.readers[q].seen| :: st1.readers[q].seen[k].value == Missing
  {
    hide Shown, Kept, Held;
  }

  /** The other sources in turn, until one has the template. */
  lemma {:induction false} AskOn(states: seq<State>, steps: seq<Step>, q: Pid, token: Token, safe: Source -> bool)
    returns (states': seq<State>, steps': seq<Step>)
    requires Run(states, steps) && AsksUnder(Last(states), q, token)
    requires forall k | 0 <= k < |Last(states).readers[q].seen| :: Last(states).readers[q].seen[k].value == Missing
    ensures var r := Last(states).readers[q];
            Smoothly(states, steps, states', steps', q, safe, 4 * (|r.slots| - |r.seen|))
    ensures AllAsked(Last(states), Last(states'), q, token, safe)
    decreases |Last(states).readers[q].slots| - |Last(states).readers[q].seen|
  {
    hide AllAsked, AskedOnce, BaseInv;
    RunKeepsBase(states, steps, |steps|);
    RunLength(states, steps);
    hide Run;
    var st := Last(states);
    StoreOf(st);
    var x;
    states', steps', x := AskOne(states, steps, q, token, safe);
    ghost var s1, t1 := states', steps';
    GoesOn(st, Last(s1), q, token, safe, x);
    var left: nat := |st.readers[q].slots| - |st.readers[q].seen| - 1;
    if Last(s1).readers[q].pc == Looking {
      RunOf(states, steps, s1, t1, q, safe, 4);
      states', steps' := AskOn(s1, t1, q, token, safe);
      SmoothlyOn(states, steps, s1, t1, states', steps', q, safe, 4, 4 * left);
      AskedMore(st, Last(s1), Last(states'), q, token, safe, x);
    } else {
      AskedLast(st, Last(s1), q, token, safe, x);
      Longer(states, steps, states', steps', q, safe, 4, 4 + 4 * left);
    }
  }

  lemma StoreOf(st: State)
    requires BaseInv(st)
    ensures StoreInv(st)
  {
  }

  lemma SameShown(st: State, st': State, slot: Slot, token: Token)
    requires Later(st, st') && st'.entries == st.entries
    ensures Shown(st', slot, token) == Shown(st, slot, token)
  {
  }

  // ---------------------------------------------------------------------------
  // All sources, without a generation
  // ---------------------------------------------------------------------------

  /** What is kept for the generation to add: exactly the readings of the slots that may be kept. */
  ghost predicate InitialExactly(r: Reader, safe: Source -> bool) {
    && |r.initial| <= |r.seen| <= |r.slots|
    && (forall p | p in r.initial :: exists k :: 0 <= k < |r.seen| && Kept(r.slots[k], safe) && r.seen[k] == p)
    && (forall k | 0 <= k < |r.seen| && Kept(r.slots[k], safe) :: r.seen[k] in r.initial)
  }

  /** The call asks its sources directly; without a cached source it keeps nothing. */
  ghost predicate AsksSources(st: State, q: Pid, safe: Source -> bool) {
    && st.history != [] && q in st.readers
    && var r := st.readers[q];
    && r.generation == None && r.pending == [] && InitialExactly(r, safe) && SeenNow(st, r)
    && (!r.initialize ==> forall slot | slot in r.slots :: !slot.cached)
  }

  /** Every source asked so far held what the call got, and holds it now. */
  ghost predicate SeenNow(st: State, r: Reader)
    requires st.history != []
  {
    && |r.seen| <= |r.slots|
    && (forall k | 0 <= k < |r.seen| ::
          r.seen[k].source == r.slots[k].source && r.seen[k].value == Held(SourcesAt(st), r.slots[k].source))
    && (forall k | 0 <= k < |r.seen| - 1 :: r.seen[k].value == Missing)
  }

  /** The reader after a direct read: on, or about to add a generation for what it kept. */
  function Direct(st: State, r: Reader, safe: Source -> bool): Reader
    requires st.history != [] && |r.seen| < |r.slots|
  {
    var x := Now(st, r);
    var more := r.(seen := r.seen + [x],
                   initial := if r.initialize && Kept(r.slots[|r.seen|], safe) then r.initial + [x] else r.initial);
    more.(pc := if x.value.Found? && r.initialize && more.initial != [] then Adding else Onward(more))
  }

  lemma ReadDirectly(st: State, r: Reader, safe: Source -> bool)
    requires st.history != [] && |r.seen| < |r.slots| && r.pc == Looking && (!r.initialize ==> r.generation == None)
    ensures AfterRead(st, r, true, safe(r.slots[|r.seen|].source)) == Direct(st, r, safe)
  {
    var x := Now(st, r);
    AdvanceIs(r.(seen := r.seen + [x]));
    AdvanceIs(r.(seen := r.seen + [x], initial := r.initial + [x]));
    OnwardOf(r.(seen := r.seen + [x]), r.initial + [x]);
    hide Advance, Onward, Held;
  }

  lemma OnwardOf(r: Reader, initial: seq<Reading>)
    ensures Onward(r.(initial := initial)) == Onward(r)
  {
  }

  lemma DirectKeeps(st: State, st': State, q: Pid, safe: Source -> bool)
    requires AsksSources(st, q, safe) && Later(st, st')
    requires |st.readers[q].seen| < |st.readers[q].slots|
    requires forall k | 0 <= k < |st.readers[q].seen| :: st.readers[q].seen[k].value == Missing
    requires st'.readers == st.readers[q := Direct(st, st.readers[q], safe)]
    ensures AsksSources(st', q, safe)
  {
    hide Held, Onward;
    var r, r' := st.readers[q], st'.readers[q];
    var n := |r.seen|;
    assert r.slots[n] in r.slots;
    assert Kept(r.slots[n], safe) ==> r.initialize;
    forall p | p in r'.initial ensures exists k :: 0 <= k < |r'.seen| && Kept(r'.slots[k], safe) && r'.seen[k] == p {
      if p in r.initial {
        var k :| 0 <= k < n && Kept(r.slots[k], safe) && r.seen[k] == p;
        assert r'.seen[k] == p;
      } else {
        assert r'.seen[n] == p;
      }
    }
    forall k | 0 <= k < |r'.seen| && Kept(r'.slots[k], safe) ensures r'.seen[k] in r'.initial {
      if k < n {
        assert r.seen[k] in r.initial;
      }
    }
  }

  /** The call has asked its sources: it has ended, or a source has the template and it is about to add. */
  ghost predicate SourcesAsked(st: State, st': State, q: Pid, safe: Source -> bool)
    requires q in st.readers
  {
    && Later(st, st') && st'.entries == st.entries && AsksSources(st', q, safe)
    && var r, r' := st.readers[q], st'.readers[q];
    && r'.slots == r.slots && r'.initialize == r.initialize
    && (if r'.pc == Adding then r'.initial != [] && r'.seen != [] && r'.seen[|r'.seen| - 1].value.Found?
        else Ended(r') && (r'.pc == Returned ==> r'.initial == []))
  }

  lemma ReadOne(states: seq<State>, steps: seq<Step>, q: Pid, safe: Source -> bool)
    returns (states': seq<State>, steps': seq<Step>)
    requires Run(states, steps) && AsksSources(Last(states), q, safe)
    requires Last(states).readers[q].pc == Looking && |Last(states).readers[q].seen| < |Last(states).readers[q].slots|
    ensures Smoothly(states, steps, states', steps', q, safe, 1)
    ensures Last(states') == Quiet(Last(states), q, Direct(Last(states), Last(states).readers[q], safe))
  {
    var st := Last(states);
    var step := Read(q, true, safe(NextSlot(st, q).source));
    ReadDirectly(st, st.readers[q], safe);
    QuietDo(st, step);
    hide Do, AfterRead, Direct, Held, InitialExactly, SeenNow;
    states', steps' := OneStep(states, steps, step, q, safe);
  }

  /** Only a call with a cached source keeps readings. */
  lemma KeepsIfCached(st: State, q: Pid, safe: Source -> bool)
    requires AsksSources(st, q, safe) && st.readers[q].initial != []
    ensures st.readers[q].initialize
  {
    var r := st.readers[q];
    hide SeenNow;
    assert r.initial[0] in r.initial;
    var k :| 0 <= k < |r.seen| && Kept(r.slots[k], safe) && r.seen[k] == r.initial[0];
    assert r.slots[k] in r.slots;
  }

  lemma DirectGoesOn(st: State, st': State, q: Pid, safe: Source -> bool)
    requires AsksSources(st, q, safe) && |st.readers[q].seen| < |st.readers[q].slots|
    requires forall k | 0 <= k < |st.readers[q].seen| :: st.readers[q].seen[k].value == Missing
    requires st' == Quiet(st, q, Direct(st, st.readers[q], safe))
    ensures Later(st, st') && AsksSources(st', q, safe) && st'.entries == st.entries
    ensures st'.readers[q].slots == st.readers[q].slots && |st'.readers[q].seen| == |st.readers[q].seen| + 1
    ensures st'.readers[q].initialize == st.readers[q].initialize
    ensures st'.readers[q].pc == Looking ==>
              && |st'.readers[q].seen| < |st.readers[q].slots|
              && forall k | 0 <= k < |st'.readers[q].seen| :: st'.readers[q].seen[k].value == Missing
    ensures st'.readers[q].pc != Looking ==> SourcesAsked(st, st', q, safe)
  {
    DirectKeeps(st, st', q, safe);
    if st'.readers[q].initial != [] {
      KeepsIfCached(st', q, safe);
    }
    hide InitialExactly, SeenNow, Held, Kept;
  }

  lemma {:induction false} ReadOn(states: seq<State>, steps: seq<Step>, q: Pid, safe: Source -> bool)
    returns (states': seq<State>, steps': seq<Step>)
    requires Run(states, steps) && AsksSources(Last(states), q, safe)
    requires Last(states).readers[q].pc == Looking && |Last(states).readers[q].seen| < |Last(states).readers[q].slots|
    requires forall k | 0 <= k < |Last(states).readers[q].seen| :: Last(states).readers[q].seen[k].value == Missing
    ensures var r := Last(states).readers[q]; Smoothly(states, steps, states', steps', q, safe, |r.slots| - |r.seen|)
    ensures SourcesAsked(Last(states), Last(states'), q, safe)
    decreases |Last(states).readers[q].slots| - |Last(states).readers[q].seen|
  {
    hide Direct, SourcesAsked, InitialExactly, SeenNow;
    RunLength(states, steps);
    var st := Last(states);
    states', steps' := ReadOne(states, steps, q, safe);
    ghost var s1, t1 := states', steps';
    hide Run;
    DirectGoesOn(st, Last(s1), q, safe);
    var left: nat := |st.readers[q].slots| - |st.readers[q].seen| - 1;
    if Last(s1).readers[q].pc == Looking {
      RunOf(states, steps, s1, t1, q, safe, 1);
      states', steps' := ReadOn(s1, t1, q, safe);
      SmoothlyOn(states, steps, s1, t1, states', steps', q, safe, 1, left);
      AskedBoth(st, Last(s1), Last(states'), q, safe);
    } else {
      Longer(states, steps, states', steps', q, safe, 1, 1 + left);
    }
  }

  lemma AskedBoth(st: State, st1: State, st': State, q: Pid, safe: Source -> bool)
    requires q in st.readers && q in st1.readers && Later(st, st1) && st1.entries == st.entries
    requires st1.readers[q].slots == st.readers[q].slots && st1.readers[q].initialize == st.readers[q].initialize
    requires SourcesAsked(st1, st', q, safe)
    ensures SourcesAsked(st, st', q, safe)
  {
    hide AsksSources;
  }

  // ---------------------------------------------------------------------------
  // A generation of its own
  // ---------------------------------------------------------------------------

  lemma {:induction false} StoredIs(entries: map<Key, Reading>, readings: seq<Reading>, token: Token)
    ensures forall key :: key in entries ==> key in Stored(entries, readings, token)
    ensures forall p :: p in readings ==> Key(p.source, token) in Stored(entries, readings, token)
    ensures forall key :: key in Stored(entries, readings, token) ==>
              || (key in entries && Stored(entries, readings, token)[key] == entries[key])
              || exists p :: p in readings && Key(p.source, token) == key && Stored(entries, readings, token)[key] == p
    decreases |readings|
  {
    if readings != [] {
      StoredIs(entries[Key(readings[0].source, token) := readings[0]], readings[1..], token);
      assert readings == [readings[0]] + readings[1..];
    }
  }

  /** The call adds a generation and stores everything it kept under it. */
  lemma AddAndStore(states: seq<State>, steps: seq<Step>, q: Pid, token: Token, safe: Source -> bool)
    returns (states': seq<State>, steps': seq<Step>)
    requires Run(states, steps) && Last(states).history != [] && q in Last(states).readers
    requires Last(states).current == None && token !in Last(states).issued
    requires Last(states).readers[q].pc == Adding && Last(states).readers[q].initial != []
    ensures Smoothly(states, steps, states', steps', q, safe, 1 + 2 * |Last(states).readers[q].initial|)
    ensures var st, st' := Last(states), Last(states');
            var r := st.readers[q];
            && st'.current == Some(token) && st'.history != [] && SourcesAt(st') == SourcesAt(st)
            && st'.entries == Stored(st.entries, r.initial, token)
            && st'.readers == st.readers[q := r.(generation := Some(token), pending := [], pc := Onward(r))]
  {
    RunLength(states, steps);
    var st := Last(states);
    var r := st.readers[q];
    AddDo(st, q, token);
    ghost var s1, t1 := OneStep(states, steps, AddInitial(q, token, Added), q, safe);
    RunOf(states, steps, s1, t1, q, safe, 1);
    hide Run, Do, Onward, Stored;
    states', steps' := StoreAll(s1, t1, q, token, safe);
    SmoothlyOn(states, steps, s1, t1, states', steps', q, safe, 1, 2 * |r.initial|);
    assert Onward(r.(generation := Some(token), pending := r.initial, pc := Storing)) == Onward(r) by {
      OnwardIgnores(r.(generation := Some(token)), r.initial, Storing);
      OnwardAnywhere(r, Some(token));
    }
  }

  lemma OnwardAnywhere(r: Reader, generation: Option<Token>)
    ensures Onward(r.(generation := generation)) == Onward(r)
  {
  }

  /** Under a token that no entry has, every source shows what it holds. */
  ghost predicate Unused(st: State, slots: seq<Slot>, token: Token) {
    forall slot | slot in slots :: !slot.cached || Key(slot.source, token) !in st.entries
  }

  lemma SeenIsShown(st: State, r: Reader, token: Token)
    requires st.history != [] && SeenNow(st, r) && Unused(st, r.slots, token)
    ensures GotShown(st, r, 0, token)
  {
    hide Held;
    forall k | 0 <= k < |r.seen| ensures r.seen[k].value == Shown(st, r.slots[k], token) {
      assert r.slots[k] in r.slots;
    }
  }

  /** What the call kept is in the store exactly. */
  lemma StoredExactly(st: State, r: Reader, token: Token, safe: Source -> bool)
    requires st.history != [] && |r.seen| <= |r.slots| && SeenNow(st, r) && InitialExactly(r, safe)
    requires forall key :: key in st.entries ==> key.token != token
    ensures KeptExactly(st, Stored(st.entries, r.initial, token), r.slots, 0, |r.seen|, token, safe)
  {
    StoredIs(st.entries, r.initial, token);
    var entries := Stored(st.entries, r.initial, token);
    hide Stored, Held, Kept, SeenNow, InitialExactly;
    forall k, key: Key | 0 <= k < |r.seen| && Kept(r.slots[k], safe) && key == Key(r.slots[k].source, token)
      ensures key in entries
    {
      KeptIsInitial(st, r, k, safe);
    }
    forall key | key in entries && key !in st.entries
      ensures key.token == token && entries[key].source == key.source
      ensures entries[key].value == Held(SourcesAt(st), key.source)
      ensures exists k :: 0 <= k < |r.seen| && Kept(r.slots[k], safe) && r.slots[k].source == key.source
    {
      var p :| p in r.initial && Key(p.source, token) == key && entries[key] == p;
      InitialIsKept(st, r, p, safe);
    }
    forall key | key in st.entries ensures entries[key] == st.entries[key] {
      assert key.token != token;
    }
  }

  lemma KeptIsInitial(st: State, r: Reader, k: nat, safe: Source -> bool)
    requires st.history != [] && SeenNow(st, r) && InitialExactly(r, safe)
    requires k < |r.seen| && Kept(r.slots[k], safe)
    ensures r.seen[k] in r.initial && r.seen[k].source == r.slots[k].source
  {
  }

  lemma InitialIsKept(st: State, r: Reader, p: Reading, safe: Source -> bool)
    requires st.history != [] && |r.seen| <= |r.slots| && SeenNow(st, r) && InitialExactly(r, safe) && p in r.initial
    ensures p.value == Held(SourcesAt(st), p.source)
    ensures exists k :: 0 <= k < |r.seen| && Kept(r.slots[k], safe) && r.slots[k].source == p.source
  {
    var k :| 0 <= k < |r.seen| && Kept(r.slots[k], safe) && r.seen[k] == p;
    assert r.slots[k].source == p.source;
    hide Held, Kept;
  }

  // ---------------------------------------------------------------------------
  // The whole call
  // ---------------------------------------------------------------------------

  /** The reader behind its peek, under the state it peeked. */
  function Begun(st: State, slots: seq<Slot>, mode: Mode, at: nat): Reader
    requires st.history != []
  {
    var cached := exists slot :: slot in slots && slot.cached;
    var generation := if cached then st.current else None;
    var floor := if generation.Some? then Floor(st, generation.value) else at;
    Reader(slots, mode, if slots == [] then NotFound else Looking, generation, cached && st.current == None,
           [], [], [], at, floor)
  }

  lemma PeekIs(st: State, slots: seq<Slot>, mode: Mode)
    requires st.history != []
    ensures AfterPeek(st, Reader(slots, mode, Peeking, None, false, [], [], [], 0, 0), true)
            == Begun(st, slots, mode, st.Now())
  {
    hide Floor;
  }

  lemma Begin(states: seq<State>, steps: seq<Step>, q: Pid, slots: seq<Slot>, mode: Mode, safe: Source -> bool)
    returns (states': seq<State>, steps': seq<Step>)
    requires Run(states, steps) && Last(states).history != [] && q !in Last(states).readers
    ensures Smoothly(states, steps, states', steps', q, safe, 2)
    ensures |steps| < |steps'| && steps'[|steps|] == StartResolve(q, slots, mode)
    ensures var st, st' := Last(states), Last(states');
            && Later(st, st') && st'.entries == st.entries && q in st'.readers
            && st'.readers[q] == Begun(st, slots, mode, st'.readers[q].peekedAt)
  {
    RunLength(states, steps);
    var st := Last(states);
    QuietDo(st, StartResolve(q, slots, mode));
    ghost var s1, t1 := OneStep(states, steps, StartResolve(q, slots, mode), q, safe);
    RunOf(states, steps, s1, t1, q, safe, 1);
    QuietDo(Last(s1), Peek(q, true));
    PeekIs(Last(s1), slots, mode);
    hide Run, Do, AfterPeek;
    states', steps' := OneStep(s1, t1, Peek(q, true), q, safe);
    SmoothlyOn(states, steps, s1, t1, states', steps', q, safe, 1, 1);
  }

  /** The answer of a call that has ended. */
  lemma {:induction false} FirstShownIs(st: State, r: Reader, from: nat, token: Token)
    requires st.history != [] && from <= |r.seen| && GotShown(st, r, from, token) && Ended(r)
    requires r.pc == Returned ==> from < |r.seen|
    ensures FirstShown(st, r.slots[from..], token) == Answer(r)
    decreases |r.seen| - from
  {
    hide Shown;
    if from < |r.seen| {
      assert r.slots[from..][0] == r.slots[from] && r.slots[from..][1..] == r.slots[from + 1..];
      assert r.seen[from].value == Shown(st, r.slots[from], token);
      if from < |r.seen| - 1 || r.pc == NotFound {
        FirstShownIs(st, r, from + 1, token);
      }
    }
  }

  /** No entry is under a token that was never issued. */
  lemma NewTokenIsUnused(st: State, token: Token)
    requires BaseInv(st) && token !in st.issued
    ensures forall key :: key in st.entries ==> key.token != token
  {
    forall key | key in st.entries ensures key.token != token {
      assert EntryInv(st, key, st.entries[key]);
    }
  }

  /** The generation a call works under: the one that is there, else the one it adds. */
  function Under(st: State, token: Token): Token {
    if st.current.Some? then st.current.value else token
  }

  /**
    What an undisturbed call comes to. It has ended with the first template that is shown,
    or with none, and has asked no source behind that. The store has kept all it had; what
    is new in it is exactly the readings of the asked sources that may be kept, under the
    generation that was there, or under the one added when a template was found.
   */
  ghost predicate Outcome(st: State, st': State, q: Pid, slots: seq<Slot>, safe: Source -> bool, token: Token)
    requires st.history != []
  {
    && q in st'.readers
    && var r := st'.readers[q];
    && r.slots == slots && Ended(r) && GotShown(st, r, 0, Under(st, token))
    && Answer(r) == FirstShown(st, slots, Under(st, token))
    && KeptExactly(st, st'.entries, slots, 0, if st.current.Some? || r.pc == Returned then |r.seen| else 0,
                   Under(st, token), safe)
    && (st.current.Some? ==> st'.current == st.current)
    && (st.current == None ==>
          st'.current == if r.pc == Returned && exists k :: 0 <= k < |r.seen| && Kept(slots[k], safe)
                         then Some(token) else None)
  }

  lemma CallUnderGeneration(states: seq<State>, steps: seq<Step>, q: Pid, safe: Source -> bool, st: State, token: Token)
    returns (states': seq<State>, steps': seq<Step>)
    requires Run(states, steps) && AsksUnder(Last(states), q, token) && Last(states).readers[q].seen == []
    requires Later(st, Last(states)) && Last(states).entries == st.entries
    ensures var slots := Last(states).readers[q].slots;
            && Smoothly(states, steps, states', steps', q, safe, 4 * |slots|)
            && Outcome(st, Last(states'), q, slots, safe, token)
  {
    RunLength(states, steps);
    hide Run, KeptExactly, Ended, Shown, FirstShown;
    states', steps' := AskOn(states, steps, q, token, safe);
    OutcomeUnder(st, Last(states), Last(states'), q, token, safe);
  }

  lemma OutcomeUnder(st: State, st1: State, st': State, q: Pid, token: Token, safe: Source -> bool)
    requires Later(st, st1) && st1.entries == st.entries && q in st1.readers && st1.readers[q].seen == []
    requires AllAsked(st1, st', q, token, safe) && st.current == Some(token)
    ensures Outcome(st, st', q, st1.readers[q].slots, safe, token)
  {
    var slots, r := st1.readers[q].slots, st'.readers[q];
    forall slot: Slot ensures Shown(st, slot, token) == Shown(st1, slot, token) {
      SameShown(st, st1, slot, token);
    }
    SameKept(st, st1, st'.entries, slots, |r.seen|, token, safe);
    FirstShownIs(st, r, 0, token);
    assert slots[0..] == slots;
    hide Shown, FirstShown, KeptExactly;
  }

  lemma SameKept(st: State, st1: State, entries: map<Key, Reading>, slots: seq<Slot>, to: nat,
                 token: Token, safe: Source -> bool)
    requires Later(st, st1) && st1.entries == st.entries && to <= |slots|
    requires KeptExactly(st1, entries, slots, 0, to, token, safe)
    ensures KeptExactly(st, entries, slots, 0, to, token, safe)
  {
  }

  lemma NoneKept(st: State, slots: seq<Slot>, to: nat, token: Token, safe: Source -> bool)
    requires to <= |slots| && st.history != [] && forall k | 0 <= k < to :: !Kept(slots[k], safe)
    ensures KeptExactly(st, st.entries, slots, 0, to, token, safe)
  {
  }

  lemma SameGot(st: State, st1: State, r: Reader, token: Token)
    requires Later(st, st1) && st1.entries == st.entries && GotShown(st1, r, 0, token)
    ensures GotShown(st, r, 0, token)
  {
    forall slot: Slot ensures Shown(st, slot, token) == Shown(st1, slot, token) {
      SameShown(st, st1, slot, token);
    }
    hide Shown;
  }

  /** The call has ended without a generation, and without having kept anything or having found a template. */
  lemma OutcomeEnded(st: State, st1: State, q: Pid, safe: Source -> bool, token: Token)
    requires Later(st, st1) && st1.entries == st.entries && AsksSources(st1, q, safe) && Ended(st1.readers[q])
    requires st1.readers[q].pc == Returned ==> st1.readers[q].initial == []
    requires st.current == None || !st1.readers[q].initialize
    requires forall key :: key in st.entries ==> key.token != token
    ensures Outcome(st, st1, q, st1.readers[q].slots, safe, token)
  {
    var r := st1.readers[q];
    SeenIsShown(st1, r, Under(st, token));
    SameGot(st, st1, r, Under(st, token));
    FirstShownIs(st, r, 0, Under(st, token));
    assert r.slots[0..] == r.slots;
    hide Shown, FirstShown, GotShown, SeenNow, KeptExactly;
    if st.current.Some? || r.pc == Returned {
      forall k | 0 <= k < |r.seen| ensures !Kept(r.slots[k], safe) {
        assert r.slots[k] in r.slots;
        assert r.initial == [] ==> r.seen[k] !in r.initial;
      }
      NoneKept(st, r.slots, |r.seen|, Under(st, token), safe);
    } else {
      NoneKept(st, r.slots, 0, token, safe);
    }
  }

  /** The call has added a generation and stored what it kept. */
  lemma OutcomeAdded(st: State, st1: State, st': State, q: Pid, safe: Source -> bool, token: Token)
    requires Later(st, st1) && st1.entries == st.entries && AsksSources(st1, q, safe) && st.current == None
    requires var r := st1.readers[q];
             && r.initial != [] && r.seen != [] && r.seen[|r.seen| - 1].value.Found?
             && st'.current == Some(token) && st'.entries == Stored(st1.entries, r.initial, token)
             && st'.readers == st1.readers[q := r.(generation := Some(token), pending := [], pc := Onward(r))]
    requires forall key :: key in st.entries ==> key.token != token
    ensures Outcome(st, st', q, st1.readers[q].slots, safe, token)
  {
    var r, r' := st1.readers[q], st'.readers[q];
    SeenIsShown(st1, r, token);
    SameGot(st, st1, r, token);
    StoredExactly(st1, r, token, safe);
    SameKept(st, st1, st'.entries, r.slots, |r.seen|, token, safe);
    InitialIsKept(st1, r, r.initial[0], safe);
    FirstShownIs(st, r', 0, token);
    assert r.slots[0..] == r.slots;
    hide Shown, FirstShown, SeenNow, KeptExactly, InitialExactly, Stored, Kept, Held;
  }

  /** The call has asked its sources directly; if it kept something and found a template, it adds. */
  lemma CallWithoutGeneration(states: seq<State>, steps: seq<Step>, q: Pid, safe: Source -> bool, st: State,
                              token: Token)
    returns (states': seq<State>, steps': seq<Step>)
    requires Run(states, steps) && Later(st, Last(states)) && Last(states).entries == st.entries
    requires AsksSources(Last(states), q, safe)
    requires var r := Last(states).readers[q];
             && (st.current == None || !r.initialize) && (r.pc != Adding ==> Ended(r))
             && (r.pc == Adding ==> r.initial != [] && r.seen != [] && r.seen[|r.seen| - 1].value.Found?)
             && (r.pc == Returned ==> r.initial == [])
    requires BaseInv(st) && token !in st.issued
    ensures var slots := Last(states).readers[q].slots;
            && Smoothly(states, steps, states', steps', q, safe, 2 * |slots| + 1)
            && Outcome(st, Last(states'), q, slots, safe, token)
  {
    NewTokenIsUnused(st, token);
    RunLength(states, steps);
    var st1 := Last(states);
    var r := st1.readers[q];
    if r.pc == Adding {
      KeepsIfCached(st1, q, safe);
      hide Run, BaseInv, Outcome, InitialExactly, SeenNow, Ended, Onward, Stored;
      states', steps' := AddAndStore(states, steps, q, token, safe);
      OutcomeAdded(st, st1, Last(states'), q, safe, token);
      FewInitial(r, safe);
      Longer(states, steps, states', steps', q, safe, 1 + 2 * |r.initial|, 2 * |r.slots| + 1);
    } else {
      states', steps' := states, steps;
      OutcomeEnded(st, st1, q, safe, token);
    }
  }

  lemma FewInitial(r: Reader, safe: Source -> bool)
    requires InitialExactly(r, safe)
    ensures |r.initial| <= |r.slots|
  {
  }

  lemma ReadAll(states: seq<State>, steps: seq<Step>, q: Pid, safe: Source -> bool)
    returns (states': seq<State>, steps': seq<Step>)
    requires Run(states, steps) && AsksSources(Last(states), q, safe)
    requires var r := Last(states).readers[q];
             && r.seen == [] && r.initial == [] && r.pc == if r.slots == [] then NotFound else Looking
    ensures Smoothly(states, steps, states', steps', q, safe, |Last(states).readers[q].slots|)
    ensures SourcesAsked(Last(states), Last(states'), q, safe)
  {
    RunLength(states, steps);
    hide InitialExactly, SeenNow;
    if Last(states).readers[q].slots == [] {
      states', steps' := states, steps;
    } else {
      hide Run, SourcesAsked;
      states', steps' := ReadOn(states, steps, q, safe);
    }
  }

  lemma OutcomeIs(st: State, st': State, q: Pid, slots: seq<Slot>, safe: Source -> bool, token: Token, other: Token)
    requires st.history != [] && st.current == Some(token) && Outcome(st, st', q, slots, safe, token)
    ensures Outcome(st, st', q, slots, safe, other)
  {
  }

  lemma NotEmpty(st: State)
    requires BaseInv(st)
    ensures st.history != []
  {
  }

  lemma CallOnSources(states: seq<State>, steps: seq<Step>, q: Pid, safe: Source -> bool, st: State, token: Token)
    returns (states': seq<State>, steps': seq<Step>)
    requires Run(states, steps) && AsksSources(Last(states), q, safe)
    requires Later(st, Last(states)) && Last(states).entries == st.entries && BaseInv(st) && token !in st.issued
    requires var r := Last(states).readers[q];
             && r.seen == [] && r.initial == [] && (r.pc == if r.slots == [] then NotFound else Looking)
             && (r.initialize ==> st.current == None)
    ensures var slots := Last(states).readers[q].slots;
            && Smoothly(states, steps, states', steps', q, safe, 3 * |slots| + 1)
            && Outcome(st, Last(states'), q, slots, safe, token)
  {
    RunLength(states, steps);
    hide Run, BaseInv, Outcome, InitialExactly, SeenNow;
    var slots := Last(states).readers[q].slots;
    ghost var s1, t1 := ReadAll(states, steps, q, safe);
    RunOf(states, steps, s1, t1, q, safe, |slots|);
    states', steps' := CallWithoutGeneration(s1, t1, q, safe, st, token);
    SmoothlyOn(states, steps, s1, t1, states', steps', q, safe, |slots|, 2 * |slots| + 1);
  }

  /** Behind the peek: which of the two ways the call goes. */
  lemma BegunIs(st: State, st1: State, q: Pid, slots: seq<Slot>, mode: Mode, at: nat, safe: Source -> bool)
    requires Later(st, st1) && q in st1.readers && st1.readers[q] == Begun(st, slots, mode, at)
    ensures var cached := exists slot :: slot in slots && slot.cached;
            && (cached && st.current.Some? ==> AsksUnder(st1, q, st.current.value))
            && (!cached || st.current == None ==> AsksSources(st1, q, safe))
            && (st1.readers[q].initialize ==> st.current == None)
            && st1.readers[q].pc == if slots == [] then NotFound else Looking
  {
    hide Floor;
  }

  /** The call behind its peek. */
  lemma CallOn(states: seq<State>, steps: seq<Step>, q: Pid, slots: seq<Slot>, mode: Mode, safe: Source -> bool,
               st: State, token: Token)
    returns (states': seq<State>, steps': seq<Step>)
    requires Run(states, steps) && Later(st, Last(states)) && Last(states).entries == st.entries
    requires q in Last(states).readers && BaseInv(st) && token !in st.issued
    requires Last(states).readers[q] == Begun(st, slots, mode, Last(states).readers[q].peekedAt)
    ensures Smoothly(states, steps, states', steps', q, safe, 4 * |slots| + 1)
    ensures Outcome(st, Last(states'), q, slots, safe, token)
  {
    BegunIs(st, Last(states), q, slots, mode, Last(states).readers[q].peekedAt, safe);
    hide Run, BaseInv, Outcome, AsksSources, AsksUnder, Later, Smoothly;
    if st.current.Some? && exists slot :: slot in slots && slot.cached {
      states', steps' := CallUnderGeneration(states, steps, q, safe, st, st.current.value);
      OutcomeIs(st, Last(states'), q, slots, safe, st.current.value, token);
      Longer(states, steps, states', steps', q, safe, 4 * |slots|, 4 * |slots| + 1);
    } else {
      states', steps' := CallOnSources(states, steps, q, safe, st, token);
      Longer(states, steps, states', steps', q, safe, 3 * |slots| + 1, 4 * |slots| + 1);
    }
  }

  /**
    From every state a run can reach, in both modes: a call that nothing disturbs ends
    after at most three operations and four for each source, with the first template that
    the cache or a source shows. A miss that may be kept is in the store afterwards, and
    one that may not is not.
   */
  lemma UndisturbedCall(states: seq<State>, steps: seq<Step>, q: Pid, slots: seq<Slot>, mode: Mode,
                        safe: Source -> bool, token: Token)
    returns (states': seq<State>, steps': seq<Step>)
    requires Run(states, steps) && q !in Last(states).readers && token !in Last(states).issued
    ensures Last(states).history != []
    ensures Smoothly(states, steps, states', steps', q, safe, 4 * |slots| + 3)
    ensures |steps| < |steps'| && steps'[|steps|] == StartResolve(q, slots, mode)
    ensures Outcome(Last(states), Last(states'), q, slots, safe, token)
  {
    RunLength(states, steps);
    RunKeepsBase(states, steps, |steps|);
    NotEmpty(Last(states));
    hide Run, BaseInv, Outcome, Smooth, Later, Begun;
    ghost var s1, t1 := Begin(states, steps, q, slots, mode, safe);
    RunOf(states, steps, s1, t1, q, safe, 2);
    states', steps' := CallOn(s1, t1, q, slots, mode, safe, Last(states), token);
    SmoothlyOn(states, steps, s1, t1, states', steps', q, safe, 2, 4 * |slots| + 1);
  }
}
