/**
  The generation-token cache protocol for one canonical template name.

  Resolvers and invalidators share one backend. Each step below is one atomic backend
  operation or one source read, and a run is any interleaving of the steps of any
  number of processes with changes of the sources, expiry of entries and, where it is
  allowed, eviction of the generation key. Every backend operation may fail, a `set`
  may be dropped silently or applied although it reports a failure.
 */
module CacheProtocol {
  import opened Wrappers

  type Pid = nat
  type Token = nat
  type Source = nat

  /** What a source holds under the name: nothing, or one template. */
  datatype Value = Missing | Found(content: string)

  /** The templates of all sources at one moment; a source that is not listed misses. */
  type Sources = map<Source, Value>

  function Held(sources: Sources, source: Source): Value {
    if source in sources then sources[source] else Missing
  }

  /** The key of a cached result: the source identity and the generation it is under. */
  datatype Key = Key(source: Source, token: Token)

  /** A value together with the time it was read from its source. */
  datatype Reading = Reading(source: Source, value: Value, at: nat)

  /** One configured source; it is cached only when it has an identity. */
  datatype Slot = Slot(source: Source, cached: bool)

  datatype Mode = Bypass | Raise

  datatype ReaderPc =
    | Peeking                  // about to read the generation
    | Looking                  // about to ask the next source, or the cache for it
    | Fetching(publish: bool)  // the cache did not answer; about to read the source
    | Storing                  // about to set the first pending publication
    | Confirming               // about to read the generation after that set
    | Discarding(failed: bool) // about to delete what it just set
    | Adding                   // about to add an initial generation
    | Checking                 // the generation was not added; about to read it
    | Returned | NotFound | Raised

  /**
    One call of `resolve`. `seen` has one reading for each source asked so far, and
    `floor` is the earliest time such a reading may come from.
   */
  datatype Reader = Reader(
    slots: seq<Slot>, mode: Mode, pc: ReaderPc,
    generation: Option<Token>, initialize: bool,
    seen: seq<Reading>, initial: seq<Reading>, pending: seq<Reading>,
    peekedAt: nat, floor: nat)

  datatype InvalidatorPc =
    | Starting | Creating | Rereading | Rotating(current: Token) | Verifying(current: Token)
    | Done(at: nat) | Failed

  /** One call of `invalidate`. */
  datatype Invalidator = Invalidator(pc: InvalidatorPc, began: nat)

  /**
    The shared backend, the processes and the history. `crowned` records when a token
    became the current generation, and `since` the earliest time that a reading stored
    under it may come from: that moment, or the first reading that the resolver that
    added it is about to store.
   */
  datatype State = State(
    current: Option<Token>, entries: map<Key, Reading>,
    history: seq<Sources>, issued: set<Token>,
    crowned: map<Token, nat>, since: map<Token, nat>,
    readers: map<Pid, Reader>, invalidators: map<Pid, Invalidator>)
  {
    function Now(): int { |history| - 1 }
  }

  datatype AddOutcome = Added | Refused | AddFailed(applied: bool)

  datatype Step =
    | Change(sources: Sources) | Expire(key: Key) | Evict
    | StartResolve(pid: Pid, slots: seq<Slot>, mode: Mode)
    | Peek(pid: Pid, ok: bool)
    | Lookup(pid: Pid, ok: bool)
    | Read(pid: Pid, up: bool, safe: bool)
    | Store(pid: Pid, applied: bool, ok: bool)
    | Confirm(pid: Pid, ok: bool)
    | Discard(pid: Pid, applied: bool, ok: bool)
    | AddInitial(pid: Pid, token: Token, outcome: AddOutcome)
    | CheckInitial(pid: Pid, ok: bool)
    | StartInvalidate(pid: Pid)
    | PeekCurrent(pid: Pid, ok: bool)
    | AddCurrent(pid: Pid, token: Token, outcome: AddOutcome)
    | ReadCurrent(pid: Pid, ok: bool)
    | Rotate(pid: Pid, token: Token, applied: bool, ok: bool)
    | Verify(pid: Pid, ok: bool)

  // ---------------------------------------------------------------------------
  // The resolver
  // ---------------------------------------------------------------------------

  /** `_generation`: peek, unless no source is cached. A failure bypasses or raises. */
  function AfterPeek(st: State, r: Reader, ok: bool): Reader
    requires st.history != []
  {
    var now := st.Now();
    if forall slot | slot in r.slots :: !slot.cached then
      Advance(r.(peekedAt := now, floor := now))
    else if !ok then
      if r.mode == Raise then r.(pc := Raised, peekedAt := now, floor := now)
      else Advance(r.(peekedAt := now, floor := now))
    else if st.current == None then
      Advance(r.(initialize := true, peekedAt := now, floor := now))
    else
      Advance(r.(generation := st.current, peekedAt := now, floor := Floor(st, st.current.value)))
  }

  function Floor(st: State, token: Token): nat {
    if token in st.since then st.since[token] else 0
  }

  /** The same call after its peek: what it was asked and what it peeked do not change. */
  predicate SameCall(r: Reader, r': Reader) {
    && r'.slots == r.slots && r'.mode == r.mode && r'.initialize == r.initialize
    && r'.floor == r.floor && r'.peekedAt == r.peekedAt && r'.pc != Peeking
  }

  /** Go on with the next source, or end: found, or every source missed. */
  function Advance(r: Reader): (r': Reader)
    ensures SameCall(r, r') && r'.generation == r.generation && r'.pc != Raised
  {
    if r.seen != [] && r.seen[|r.seen| - 1].value.Found? then r.(pc := Returned)
    else if |r.seen| >= |r.slots| then r.(pc := NotFound)
    else r.(pc := Looking)
  }

  /** `SourceUnavailable` from a cache write: raised, or logged and passed over. */
  function WriteFailed(r: Reader): (r': Reader)
    ensures SameCall(r, r') && r'.generation == r.generation && (r'.pc == Raised ==> r.mode == Raise)
  {
    if r.mode == Raise then r.(pc := Raised) else Advance(r.(pending := []))
  }

  function Published(r: Reader): (r': Reader)
    requires r.pending != []
    ensures SameCall(r, r') && r'.generation == r.generation && r'.pc != Raised
  {
    var rest := r.(pending := r.pending[1..]);
    if rest.pending == [] then Advance(rest) else rest.(pc := Storing)
  }

  predicate AsksCache(r: Reader)
    requires |r.seen| < |r.slots|
  {
    r.generation.Some? && r.slots[|r.seen|].cached
  }

  /** `get_resolved`: a failure is bypassed by reading the source without storing. */
  function AfterLookup(st: State, r: Reader, ok: bool): (r': Reader)
    requires |r.seen| < |r.slots| && AsksCache(r)
    ensures SameCall(r, r') && r'.generation == r.generation
  {
    var key := Key(r.slots[|r.seen|].source, r.generation.value);
    if !ok then (if r.mode == Raise then r.(pc := Raised) else r.(pc := Fetching(false)))
    else if key in st.entries then Advance(r.(seen := r.seen + [st.entries[key]]))
    else r.(pc := Fetching(true))
  }

  /** Read the source and decide what is published: now, at the end, or not at all. */
  function AfterRead(st: State, r: Reader, up: bool, safe: bool): (r': Reader)
    requires st.history != [] && |r.seen| < |r.slots|
    ensures SameCall(r, r') && r'.generation == r.generation
  {
    var slot := r.slots[|r.seen|];
    var reading := Reading(slot.source, Held(st.history[st.Now()], slot.source), st.Now());
    var r' := r.(seen := r.seen + [reading]);
    if !up then r.(pc := Raised)
    else if r.initialize then
      var initial := if slot.cached && safe then r.initial + [reading] else r.initial;
      if reading.value.Found? && initial != [] then r'.(initial := initial, pc := Adding)
      else Advance(r'.(initial := initial))
    else if r.pc == Fetching(true) && safe then r'.(pending := [reading], pc := Storing)
    else Advance(r')
  }

  /** `_confirm_publication` after the set of the first pending publication. */
  function AfterConfirm(st: State, r: Reader, ok: bool): (r': Reader)
    requires r.pending != []
    ensures SameCall(r, r') && r'.generation == r.generation
  {
    if !ok || st.current == None then r.(pc := Discarding(true))
    else if st.current != r.generation then r.(pc := Discarding(false))
    else Published(r)
  }

  function AfterAdd(r: Reader, token: Token, outcome: AddOutcome): (r': Reader)
    ensures SameCall(r, r') && r'.generation in {r.generation, Some(token)}
  {
    match outcome
    case Added => r.(generation := Some(token), pending := r.initial, pc := Storing)
    case Refused => r.(pc := Checking)
    case AddFailed(_) => WriteFailed(r)
  }

  // ---------------------------------------------------------------------------
  // The invalidator
  // ---------------------------------------------------------------------------

  function AfterReadCurrent(st: State, i: Invalidator, ok: bool): Invalidator {
    if !ok || st.current == None then i.(pc := Failed)
    else i.(pc := Rotating(st.current.value))
  }

  /** `generation`: read the token, and add one if there is none. */
  function AfterPeekCurrent(st: State, i: Invalidator, ok: bool): Invalidator {
    if ok && st.current == None then i.(pc := Creating) else AfterReadCurrent(st, i, ok)
  }

  function AfterAddCurrent(i: Invalidator, token: Token, outcome: AddOutcome): Invalidator {
    match outcome
    case Added => i.(pc := Rotating(token))
    case Refused => i.(pc := Rereading)
    case AddFailed(_) => i.(pc := Failed)
  }

  /** The confirming read: the generation must be there and must not be the first one. */
  function AfterVerify(st: State, i: Invalidator, ok: bool): Invalidator
    requires i.pc.Verifying? && st.history != []
  {
    if !ok || st.current == None || st.current.value == i.pc.current then i.(pc := Failed)
    else i.(pc := Done(st.Now()))
  }

  // ---------------------------------------------------------------------------
  // Runs
  // ---------------------------------------------------------------------------

  predicate ReaderAt(st: State, pid: Pid, pcs: set<ReaderPc>) {
    pid in st.readers && st.readers[pid].pc in pcs
  }

  predicate CanAdd(st: State, outcome: AddOutcome) {
    (outcome == Added || outcome == AddFailed(true)) ==> st.current == None
  }

  predicate Enabled(st: State, step: Step)
  {
    st.history != [] &&
    match step
    case Change(_) => true
    case Expire(_) => true
    case Evict => true
    case StartResolve(pid, _, _) => pid !in st.readers
    case Peek(pid, _) => ReaderAt(st, pid, {Peeking})
    case Lookup(pid, _) =>
      ReaderAt(st, pid, {Looking}) && |st.readers[pid].seen| < |st.readers[pid].slots| && AsksCache(st.readers[pid])
    case Read(pid, _, _) =>
      && ReaderAt(st, pid, {Looking, Fetching(true), Fetching(false)})
      && |st.readers[pid].seen| < |st.readers[pid].slots|
      && (st.readers[pid].pc == Looking ==> !AsksCache(st.readers[pid]))
    case Store(pid, _, _) => ReaderAt(st, pid, {Storing}) && CanPublish(st.readers[pid])
    case Confirm(pid, _) => ReaderAt(st, pid, {Confirming}) && CanPublish(st.readers[pid])
    case Discard(pid, _, _) =>
      ReaderAt(st, pid, {Discarding(true), Discarding(false)}) && CanPublish(st.readers[pid])
    case AddInitial(pid, token, outcome) =>
      ReaderAt(st, pid, {Adding}) && token !in st.issued && CanAdd(st, outcome)
    case CheckInitial(pid, _) => ReaderAt(st, pid, {Checking})
    case StartInvalidate(pid) => pid !in st.invalidators
    case PeekCurrent(pid, _) => pid in st.invalidators && st.invalidators[pid].pc == Starting
    case AddCurrent(pid, token, outcome) =>
      && pid in st.invalidators && st.invalidators[pid].pc == Creating
      && token !in st.issued && CanAdd(st, outcome)
    case ReadCurrent(pid, _) => pid in st.invalidators && st.invalidators[pid].pc == Rereading
    case Rotate(pid, token, _, _) =>
      pid in st.invalidators && st.invalidators[pid].pc.Rotating? && token !in st.issued
    case Verify(pid, _) => pid in st.invalidators && st.invalidators[pid].pc.Verifying?
  }

  predicate CanPublish(r: Reader) {
    r.pending != [] && r.generation.Some?
  }

  /** The first reading that a resolver keeps for the generation it adds. */
  function Oldest(r: Reader): nat {
    if r.initial == [] then r.peekedAt else r.initial[0].at
  }

  /** `token` is made the current generation. */
  function Crown(st: State, token: Token, since: nat): State
    requires st.history != []
  {
    st.(current := Some(token), crowned := st.crowned[token := st.Now()], since := st.since[token := since])
  }

  /** The effect of `add`; the token is used up in any case. */
  function AddToken(st: State, token: Token, outcome: AddOutcome, since: nat): State
    requires st.history != []
  {
    var st' := st.(issued := st.issued + {token});
    if outcome == Added || outcome == AddFailed(true) then Crown(st', token, since) else st'
  }

  function PendingKey(r: Reader): Key
    requires CanPublish(r)
  {
    Key(r.pending[0].source, r.generation.value)
  }

  /** What a step does to the backend. */
  function Backend(st: State, step: Step): State
    requires Enabled(st, step)
  {
    match step
    case Expire(key) => st.(entries := st.entries - {key})
    case Evict => st.(current := None)
    case Store(pid, true, _) =>
      var r := st.readers[pid];
      st.(entries := st.entries[PendingKey(r) := r.pending[0]])
    case Discard(pid, true, _) => st.(entries := st.entries - {PendingKey(st.readers[pid])})
    case AddInitial(pid, token, outcome) => AddToken(st, token, outcome, Oldest(st.readers[pid]))
    case AddCurrent(_, token, outcome) => AddToken(st, token, outcome, st.Now())
    case Rotate(_, token, applied, _) =>
      var used := st.(issued := st.issued + {token});
      if applied then Crown(used, token, st.Now()) else used
    case _ => st
  }

  predicate IsReaderStep(step: Step) {
    match step
    case StartResolve(_, _, _) => true
    case Peek(_, _) => true
    case Lookup(_, _) => true
    case Read(_, _, _) => true
    case Store(_, _, _) => true
    case Confirm(_, _) => true
    case Discard(_, _, _) => true
    case AddInitial(_, _, _) => true
    case CheckInitial(_, _) => true
    case _ => false
  }

  /** What a step of a resolver does to that resolver. */
  function ReaderAfter(st: State, step: Step): Reader
    requires Enabled(st, step) && IsReaderStep(step)
  {
    if step.StartResolve? then Reader(step.slots, step.mode, Peeking, None, false, [], [], [], 0, 0)
    else
      var r := st.readers[step.pid];
      match step
      case Peek(_, ok) => AfterPeek(st, r, ok)
      case Lookup(_, ok) => AfterLookup(st, r, ok)
      case Read(_, up, safe) => AfterRead(st, r, up, safe)
      case Store(_, _, ok) => if ok then r.(pc := Confirming) else WriteFailed(r)
      case Confirm(_, ok) => AfterConfirm(st, r, ok)
      case Discard(_, _, ok) => if r.pc.failed || !ok then WriteFailed(r) else Published(r)
      case AddInitial(_, token, outcome) => AfterAdd(r, token, outcome)
      case CheckInitial(_, ok) => if ok && st.current.Some? then Advance(r) else WriteFailed(r)
  }

  predicate IsInvalidatorStep(step: Step) {
    step.StartInvalidate? || step.PeekCurrent? || step.AddCurrent? || step.ReadCurrent? || step.Rotate? || step.Verify?
  }

  /** What a step of an invalidator does to that invalidator. */
  function InvalidatorAfter(st: State, step: Step): Invalidator
    requires Enabled(st, step) && IsInvalidatorStep(step)
  {
    if step.StartInvalidate? then Invalidator(Starting, st.Now())
    else
      var i := st.invalidators[step.pid];
      match step
      case PeekCurrent(_, ok) => AfterPeekCurrent(st, i, ok)
      case AddCurrent(_, token, outcome) => AfterAddCurrent(i, token, outcome)
      case ReadCurrent(_, ok) => AfterReadCurrent(st, i, ok)
      case Rotate(_, _, _, ok) => i.(pc := if ok then Verifying(i.pc.current) else Failed)
      case Verify(_, ok) => AfterVerify(st, i, ok)
  }

  /** One step: its effect on the backend and on its process, and time passes. */
  function Do(st: State, step: Step): State
    requires Enabled(st, step)
  {
    Backend(st, step).(
      readers := if IsReaderStep(step) then st.readers[step.pid := ReaderAfter(st, step)] else st.readers,
      invalidators :=
        if IsInvalidatorStep(step) then st.invalidators[step.pid := InvalidatorAfter(st, step)]
        else st.invalidators,
      history := st.history + [if step.Change? then step.sources else st.history[st.Now()]])
  }

  /** A backend without a generation, entries or processes. */
  predicate Initial(st: State) {
    && st.current == None && st.entries == map[] && |st.history| == 1
    && st.crowned == map[] && st.since == map[] && st.readers == map[] && st.invalidators == map[]
  }

  ghost predicate StepAt(states: seq<State>, steps: seq<Step>, k: int) {
    0 <= k < |steps| && k + 1 < |states| && Enabled(states[k], steps[k]) && states[k + 1] == Do(states[k], steps[k])
  }

  ghost predicate Run(states: seq<State>, steps: seq<Step>) {
    && |states| == |steps| + 1
    && Initial(states[0])
    && (forall k | 0 <= k < |steps| :: StepAt(states, steps, k))
  }

  // ---------------------------------------------------------------------------
  // What every step keeps
  // ---------------------------------------------------------------------------

  /** The reading is true: the source held the value at that time. */
  predicate Genuine(st: State, reading: Reading) {
    reading.at < |st.history| && Held(st.history[reading.at], reading.source) == reading.value
  }

  /** Tokens are crowned one at a time, each once, and the last one crowned reigns. */
  ghost predicate TokensInv(st: State) {
    && st.history != []
    && st.crowned.Keys <= st.issued && st.since.Keys == st.crowned.Keys
    && (forall t | t in st.crowned :: st.since[t] <= st.crowned[t] < |st.history| - 1)
    && (forall t, u | t in st.crowned && u in st.crowned && st.crowned[t] == st.crowned[u] :: t == u)
    && (st.current.Some? ==>
          && st.current.value in st.crowned
          && forall t | t in st.crowned :: st.crowned[t] <= st.crowned[st.current.value])
  }

  ghost predicate StoreInv(st: State) {
    && TokensInv(st)
    && (forall key | key in st.entries :: EntryInv(st, key, st.entries[key]))
  }

  /** Entries are genuine, and no older than their token allows. */
  ghost predicate EntryInv(st: State, key: Key, reading: Reading) {
    key.token in st.crowned && Genuine(st, reading) && reading.source == key.source
    && reading.at >= Floor(st, key.token)
  }

  ghost predicate Publishable(st: State, readings: seq<Reading>, from: nat) {
    forall p | p in readings :: Genuine(st, p) && p.at >= from
  }

  /** The readings so far are the sources' own, in order, and all but the last miss. */
  ghost predicate SeenInv(st: State, r: Reader) {
    && |r.seen| <= |r.slots|
    && (forall k | 0 <= k < |r.seen| ::
          r.seen[k].source == r.slots[k].source && Genuine(st, r.seen[k]) && r.seen[k].at >= r.floor)
    && (forall k | 0 <= k < |r.seen| - 1 :: r.seen[k].value == Missing)
  }

  predicate AllMissed(r: Reader) {
    r.seen == [] || r.seen[|r.seen| - 1].value == Missing
  }

  ghost predicate PcInv(r: Reader) {
    match r.pc
    case Peeking => r.seen == [] && r.generation == None && !r.initialize && r.initial == [] && r.pending == []
    case Looking => AllMissed(r) && |r.seen| < |r.slots|
    case Fetching(_) => AllMissed(r) && |r.seen| < |r.slots| && r.generation.Some? && !r.initialize
    case Storing => r.pending != [] && r.generation.Some?
    case Confirming => r.pending != [] && r.generation.Some?
    case Discarding(_) => r.pending != [] && r.generation.Some?
    case Adding => r.initialize && r.generation == None && !AllMissed(r) && r.initial != []
    case Checking => r.initialize && !AllMissed(r)
    case Returned => !AllMissed(r)
    case NotFound => AllMissed(r) && |r.seen| == |r.slots|
    case Raised => true
  }

  ghost predicate Sound(st: State, r: Reader) {
    && SeenInv(st, r)
    && r.floor <= r.peekedAt < |st.history| - 1
    && (r.generation.Some? ==>
          && r.generation.value in st.crowned && r.floor <= Floor(st, r.generation.value)
          && (!r.initialize ==> r.floor == Floor(st, r.generation.value))
          && Publishable(st, r.pending, Floor(st, r.generation.value)))
    && (r.generation == None ==> r.pending == [])
    && (r.generation.Some? && r.initialize ==> !AllMissed(r))
    && (r.initialize ==> r.floor == r.peekedAt) && (r.initial != [] ==> r.initialize)
    && Publishable(st, r.initial, Oldest(r)) && r.floor <= Oldest(r)
  }

  ghost predicate ReaderInv(st: State, r: Reader) {
    Sound(st, r) && PcInv(r)
  }

  ghost predicate BaseInv(st: State) {
    && StoreInv(st)
    && (forall pid | pid in st.readers :: ReaderInv(st, st.readers[pid]))
    && (forall pid | pid in st.invalidators :: InvalidatorTimes(st, st.invalidators[pid]))
  }

  ghost predicate InvalidatorTimes(st: State, i: Invalidator) {
    && i.began < |st.history| - 1
    && (i.pc.Done? ==> i.began <= i.pc.at < |st.history| - 1)
    && (i.pc.Rotating? ==> i.pc.current in st.crowned)
    && (i.pc.Verifying? ==> i.pc.current in st.crowned)
  }

  /** History is only added to, and tokens are crowned once. */
  ghost predicate Grows(st: State, st': State) {
    && |st'.history| == |st.history| + 1 && st'.history[..|st.history|] == st.history
    && st.issued <= st'.issued
    && st.crowned.Keys <= st'.crowned.Keys
    && (forall t | t in st.crowned :: st'.crowned[t] == st.crowned[t])
    && (forall t | t in st'.crowned && t !in st.crowned :: t !in st.issued && st'.crowned[t] == |st.history| - 1)
    && (forall t | t in st.since :: t in st'.since && st'.since[t] == st.since[t])
  }

  lemma ReaderKept(st: State, st': State, r: Reader)
    requires TokensInv(st) && Grows(st, st') && ReaderInv(st, r)
    ensures ReaderInv(st', r)
  {
    GenuineKept(st, st');
    assert r.generation.Some? ==> Floor(st', r.generation.value) == Floor(st, r.generation.value);
  }

  lemma GenuineKept(st: State, st': State)
    requires Grows(st, st')
    ensures forall reading | Genuine(st, reading) :: Genuine(st', reading)
  {
    forall reading | Genuine(st, reading) ensures Genuine(st', reading) {
      assert st'.history[reading.at] == st'.history[..|st.history|][reading.at];
    }
  }

  ghost predicate SameTokens(st: State, st': State) {
    && st'.crowned == st.crowned && st'.since == st.since
    && (st'.current == st.current || st'.current == None)
  }

  ghost predicate Crowns(st: State, st': State, token: Token, since: nat) {
    && st.history != [] && token !in st.issued
    && st'.crowned == st.crowned[token := st.Now()] && st'.current == Some(token)
    && st'.issued == st.issued + {token}
    && st'.since == st.since[token := since]
  }

  /** The earliest reading that the token of such a step may come to hold. */
  function SinceOf(st: State, step: Step): nat
    requires Enabled(st, step)
  {
    if step.AddInitial? then Oldest(st.readers[step.pid]) else st.Now()
  }

  /** The three steps that crown a token, and what the others leave alone. */
  lemma TokenEffect(st: State, step: Step)
    requires Enabled(st, step)
    ensures var st' := Do(st, step);
            || (SameTokens(st, st') && (step != Evict ==> st'.current == st.current))
            || (&& (step.AddInitial? || step.AddCurrent?)
                && st.current == None && Crowns(st, st', step.token, SinceOf(st, step)))
            || (step.Rotate? && Crowns(st, st', step.token, SinceOf(st, step)))
  {
    hide ReaderAfter, InvalidatorAfter, Oldest;
  }

  lemma StepAppends(st: State, step: Step)
    requires Enabled(st, step)
    ensures var st' := Do(st, step);
            |st'.history| == |st.history| + 1 && st'.history[..|st.history|] == st.history && st.issued <= st'.issued
  {
    hide ReaderAfter, InvalidatorAfter;
  }

  lemma StepGrows(st: State, step: Step)
    requires TokensInv(st) && Enabled(st, step)
    ensures Grows(st, Do(st, step))
  {
    TokenEffect(st, step);
    StepAppends(st, step);
    hide Do, Enabled, SinceOf;
  }

  lemma CrowningKeepsTokens(st: State, st': State, token: Token, since: nat)
    requires TokensInv(st) && Grows(st, st') && Crowns(st, st', token, since) && since <= st.Now()
    ensures TokensInv(st')
  {
  }

  lemma SameTokensKept(st: State, st': State)
    requires TokensInv(st) && Grows(st, st') && SameTokens(st, st')
    ensures TokensInv(st')
  {
  }

  lemma StepKeepsTokens(st: State, step: Step)
    requires BaseInv(st) && Enabled(st, step) && Grows(st, Do(st, step))
    ensures TokensInv(Do(st, step))
  {
    TokenEffect(st, step);
    assert SinceOf(st, step) <= st.Now() by {
      if step.AddInitial? {
        assert ReaderInv(st, st.readers[step.pid]);
      }
    }
    if SameTokens(st, Do(st, step)) {
      SameTokensKept(st, Do(st, step));
    } else {
      CrowningKeepsTokens(st, Do(st, step), step.token, SinceOf(st, step));
    }
  }

  /** Only a publication adds an entry. */
  lemma EntryEffect(st: State, step: Step, key: Key)
    requires Enabled(st, step) && key in Do(st, step).entries
    ensures var reading := Do(st, step).entries[key];
            || (key in st.entries && reading == st.entries[key])
            || (step.Store? && key == PendingKey(st.readers[step.pid]) && reading == st.readers[step.pid].pending[0])
  {
  }

  /** What a resolver stores is genuine and read under the token it stores it under. */
  lemma PublicationIsEntry(st: State, st': State, r: Reader)
    requires TokensInv(st) && Grows(st, st') && ReaderInv(st, r) && CanPublish(r)
    ensures EntryInv(st', PendingKey(r), r.pending[0])
  {
    ReaderKept(st, st', r);
    assert r.pending[0] in r.pending;
  }

  lemma EntryKept(st: State, st': State, key: Key, reading: Reading)
    requires TokensInv(st) && Grows(st, st') && EntryInv(st, key, reading)
    ensures EntryInv(st', key, reading)
  {
    GenuineKept(st, st');
    assert Floor(st', key.token) == Floor(st, key.token);
  }

  lemma StepKeepsEntry(st: State, step: Step, key: Key)
    requires BaseInv(st) && Enabled(st, step) && Grows(st, Do(st, step)) && key in Do(st, step).entries
    ensures EntryInv(Do(st, step), key, Do(st, step).entries[key])
  {
    var st' := Do(st, step);
    EntryEffect(st, step, key);
    if key in st.entries && st'.entries[key] == st.entries[key] {
      EntryKept(st, st', key, st.entries[key]);
    } else {
      PublicationIsEntry(st, st', st.readers[step.pid]);
    }
  }

  lemma AdvanceKeeps(st: State, r: Reader)
    requires Sound(st, r)
    ensures ReaderInv(st, Advance(r))
  {
  }

  lemma WriteFailedKeeps(st: State, r: Reader)
    requires Sound(st, r)
    ensures ReaderInv(st, WriteFailed(r))
  {
    AdvanceKeeps(st, r.(pending := []));
  }

  lemma SoundWithFewer(st: State, r: Reader)
    requires Sound(st, r) && r.pending != []
    ensures Sound(st, r.(pending := r.pending[1..]))
  {
  }

  lemma StoringKeeps(st: State, r: Reader)
    requires Sound(st, r) && r.pending != [] && r.generation.Some?
    ensures ReaderInv(st, r.(pc := Storing))
  {
  }

  lemma PublishedKeeps(st: State, r: Reader)
    requires Sound(st, r) && r.pending != [] && r.generation.Some?
    ensures ReaderInv(st, Published(r))
  {
    hide Sound, ReaderInv, Advance;
    SoundWithFewer(st, r);
    var rest := r.(pending := r.pending[1..]);
    AdvanceKeeps(st, rest);
    if rest.pending != [] {
      StoringKeeps(st, rest);
    }
  }

  /** What the peek finds is still true a moment later. */
  lemma PeekKeeps(st: State, st': State, r: Reader, ok: bool)
    requires TokensInv(st) && Grows(st, st') && ReaderInv(st, r) && r.pc == Peeking
    ensures ReaderInv(st', AfterPeek(st, r, ok))
  {
    ReaderKept(st, st', r);
    var now := st.Now();
    if st.current.Some? {
      assert Floor(st', st.current.value) == Floor(st, st.current.value);
      AdvanceKeeps(st', r.(generation := st.current, peekedAt := now, floor := Floor(st, st.current.value)));
    }
    AdvanceKeeps(st', r.(peekedAt := now, floor := now));
    AdvanceKeeps(st', r.(initialize := true, peekedAt := now, floor := now));
  }

  lemma LookupKeeps(st: State, st': State, r: Reader, ok: bool)
    requires StoreInv(st) && Grows(st, st') && ReaderInv(st, r) && r.pc == Looking && AsksCache(r)
    ensures ReaderInv(st', AfterLookup(st, r, ok))
  {
    ReaderKept(st, st', r);
    var key := Key(r.slots[|r.seen|].source, r.generation.value);
    if ok && key in st.entries {
      EntryKept(st, st', key, st.entries[key]);
      SeenExtends(st', r, st.entries[key]);
      AdvanceKeeps(st', r.(seen := r.seen + [st.entries[key]]));
    }
  }

  lemma SeenExtends(st: State, r: Reader, reading: Reading)
    requires Sound(st, r) && AllMissed(r) && |r.seen| < |r.slots|
    requires reading.source == r.slots[|r.seen|].source && Genuine(st, reading) && reading.at >= r.floor
    ensures Sound(st, r.(seen := r.seen + [reading]))
  {
  }

  /** What was read, and whether it is kept for the initial publication. */
  lemma ReadingIsSound(st: State, r: Reader, reading: Reading, kept: bool)
    requires Sound(st, r) && AllMissed(r) && |r.seen| < |r.slots| && (kept ==> r.initialize)
    requires reading.source == r.slots[|r.seen|].source && Genuine(st, reading) && reading.at >= r.floor
    requires kept ==> reading.at >= Oldest(r)
    ensures Sound(st, r.(seen := r.seen + [reading], initial := if kept then r.initial + [reading] else r.initial))
  {
    SeenExtends(st, r, reading);
  }

  /** Where a resolver goes with what it has read. */
  lemma ReadingIsTaken(st: State, r: Reader, reading: Reading)
    requires Sound(st, r) && Genuine(st, reading) && reading.at >= r.floor
    requires r.generation.Some? ==> reading.at >= Floor(st, r.generation.value)
    ensures r.initialize && r.generation == None && !AllMissed(r) && r.initial != [] ==> ReaderInv(st, r.(pc := Adding))
    ensures r.generation.Some? ==> ReaderInv(st, r.(pending := [reading], pc := Storing))
    ensures ReaderInv(st, r.(pc := Raised))
  {
  }

  lemma ReadKeeps(st: State, st': State, r: Reader, up: bool, safe: bool)
    requires TokensInv(st) && Grows(st, st') && ReaderInv(st, r)
    requires r.pc.Looking? || r.pc.Fetching?
    ensures ReaderInv(st', AfterRead(st, r, up, safe))
  {
    ReaderKept(st, st', r);
    GenuineKept(st, st');
    var slot := r.slots[|r.seen|];
    var reading := Reading(slot.source, Held(st.history[st.Now()], slot.source), st.Now());
    assert Genuine(st, reading) && r.floor <= reading.at && Oldest(r) <= reading.at by {
      assert r.initial != [] ==> Genuine(st, r.initial[0]);
    }
    assert r.generation.Some? ==> Floor(st', r.generation.value) <= reading.at;
    var kept := r.initialize && slot.cached && safe;
    var more := r.(seen := r.seen + [reading], initial := if kept then r.initial + [reading] else r.initial);
    hide SeenInv, Publishable, Genuine, Held, Floor, TokensInv, Grows;
    ReadingIsSound(st', r, reading, kept);
    AdvanceKeeps(st', more);
    ReadingIsTaken(st', r, reading);
    ReadingIsTaken(st', more, reading);
    hide ReaderInv, Sound, Advance;
  }

  lemma AddKeeps(st: State, st': State, r: Reader, token: Token, outcome: AddOutcome)
    requires TokensInv(st) && Grows(st, st') && ReaderInv(st, r) && r.pc == Adding
    requires outcome == Added ==> token in st'.crowned && Floor(st', token) == Oldest(r)
    ensures ReaderInv(st', AfterAdd(r, token, outcome))
  {
    ReaderKept(st, st', r);
    if outcome.AddFailed? {
      WriteFailedKeeps(st', r);
    }
  }

  /** What is sound of a resolver does not depend on where it stands. */
  lemma SoundAnywhere(st: State, r: Reader, pc: ReaderPc)
    requires Sound(st, r) && (pc.Confirming? || pc.Discarding?) && r.pending != [] && r.generation.Some?
    ensures ReaderInv(st, r.(pc := pc))
  {
  }

  lemma ConfirmKeeps(st: State, st': State, r: Reader, ok: bool)
    requires TokensInv(st) && Grows(st, st') && ReaderInv(st, r) && CanPublish(r)
    ensures ReaderInv(st', AfterConfirm(st, r, ok))
  {
    hide TokensInv, Grows, Sound, PcInv, Published;
    ReaderKept(st, st', r);
    SoundAnywhere(st', r, Discarding(true));
    SoundAnywhere(st', r, Discarding(false));
    PublishedKeeps(st', r);
  }

  lemma SetKeeps(st: State, st': State, r: Reader, ok: bool)
    requires TokensInv(st) && Grows(st, st') && ReaderInv(st, r) && CanPublish(r)
    ensures ReaderInv(st', if ok then r.(pc := Confirming) else WriteFailed(r))
  {
    hide TokensInv, Grows, Sound, PcInv, WriteFailed;
    ReaderKept(st, st', r);
    SoundAnywhere(st', r, Confirming);
    WriteFailedKeeps(st', r);
  }

  lemma DiscardKeeps(st: State, st': State, r: Reader, failed: bool)
    requires TokensInv(st) && Grows(st, st') && ReaderInv(st, r) && CanPublish(r)
    ensures ReaderInv(st', if failed then WriteFailed(r) else Published(r))
  {
    hide TokensInv, Grows, Sound, PcInv, WriteFailed, Published;
    ReaderKept(st, st', r);
    WriteFailedKeeps(st', r);
    PublishedKeeps(st', r);
  }

  lemma CheckKeeps(st: State, st': State, r: Reader, present: bool)
    requires TokensInv(st) && Grows(st, st') && ReaderInv(st, r)
    ensures ReaderInv(st', if present then Advance(r) else WriteFailed(r))
  {
    hide TokensInv, Grows, Sound, PcInv, WriteFailed, Advance;
    ReaderKept(st, st', r);
    AdvanceKeeps(st', r);
    WriteFailedKeeps(st', r);
  }

  lemma AddingKeepsReader(st: State, step: Step)
    requires BaseInv(st) && Enabled(st, step) && Grows(st, Do(st, step))
    requires step.AddInitial? || step.CheckInitial?
    ensures ReaderInv(Do(st, step), ReaderAfter(st, step))
  {
    var st' := Do(st, step);
    var r := st.readers[step.pid];
    assert ReaderInv(st, r) && TokensInv(st);
    hide BaseInv, ReaderInv, TokensInv, Grows, InvalidatorAfter, Advance, WriteFailed, Published, AfterConfirm, AfterAdd;
    match step
    case AddInitial(_, token, outcome) => AddKeeps(st, st', r, token, outcome);
    case CheckInitial(_, ok) => CheckKeeps(st, st', r, ok && st.current.Some?);
  }

  lemma PublishingKeepsReader(st: State, step: Step)
    requires BaseInv(st) && Enabled(st, step) && Grows(st, Do(st, step))
    requires step.Store? || step.Confirm? || step.Discard?
    ensures ReaderInv(Do(st, step), ReaderAfter(st, step))
  {
    var st' := Do(st, step);
    var r := st.readers[step.pid];
    assert ReaderInv(st, r) && TokensInv(st);
    hide BaseInv, ReaderInv, TokensInv, Grows, InvalidatorAfter, Advance, WriteFailed, Published, AfterConfirm, AfterAdd;
    match step
    case Store(_, _, ok) => SetKeeps(st, st', r, ok);
    case Confirm(_, ok) => ConfirmKeeps(st, st', r, ok);
    case Discard(_, _, ok) => DiscardKeeps(st, st', r, r.pc.failed || !ok);
  }

  lemma AskingKeepsReader(st: State, step: Step)
    requires BaseInv(st) && Enabled(st, step) && Grows(st, Do(st, step))
    requires step.Peek? || step.Lookup? || step.Read?
    ensures ReaderInv(Do(st, step), ReaderAfter(st, step))
  {
    var st' := Do(st, step);
    hide Backend, InvalidatorAfter, InvalidatorTimes, AfterPeek, AfterLookup, AfterRead, Floor, SeenInv;
    match step
    case Peek(pid, ok) => PeekKeeps(st, st', st.readers[pid], ok);
    case Lookup(pid, ok) => LookupKeeps(st, st', st.readers[pid], ok);
    case Read(pid, up, safe) => ReadKeeps(st, st', st.readers[pid], up, safe);
  }

  lemma StepKeepsReader(st: State, step: Step)
    requires BaseInv(st) && Enabled(st, step) && IsReaderStep(step)
    ensures ReaderInv(Do(st, step), ReaderAfter(st, step))
  {
    StepGrows(st, step);
    if step.Peek? || step.Lookup? || step.Read? {
      AskingKeepsReader(st, step);
    } else if !step.StartResolve? {
      hide Do, Enabled, BaseInv, ReaderAfter;
      if step.AddInitial? || step.CheckInitial? {
        AddingKeepsReader(st, step);
      } else {
        PublishingKeepsReader(st, step);
      }
    }
  }

  lemma StepKeepsInvalidator(st: State, step: Step)
    requires BaseInv(st) && Enabled(st, step) && IsInvalidatorStep(step)
    ensures InvalidatorTimes(Do(st, step), InvalidatorAfter(st, step))
  {
    hide EntryInv, ReaderInv, ReaderAfter, Floor, Oldest, PendingKey, Genuine;
    StepGrows(st, step);
  }

  lemma StepKeepsReaders(st: State, step: Step, pid: Pid)
    requires BaseInv(st) && Enabled(st, step) && pid in Do(st, step).readers
    ensures ReaderInv(Do(st, step), Do(st, step).readers[pid])
  {
    if IsReaderStep(step) && pid == step.pid {
      StepKeepsReader(st, step);
    } else {
      StepGrows(st, step);
      ReaderKept(st, Do(st, step), st.readers[pid]);
    }
  }

  lemma StepKeepsInvalidators(st: State, step: Step, pid: Pid)
    requires BaseInv(st) && Enabled(st, step) && pid in Do(st, step).invalidators
    ensures InvalidatorTimes(Do(st, step), Do(st, step).invalidators[pid])
  {
    hide ReaderAfter, Backend, Floor, EntryInv, ReaderInv, TokensInv;
    if IsInvalidatorStep(step) && pid == step.pid {
      StepKeepsInvalidator(st, step);
    } else {
      StepGrows(st, step);
    }
  }

  /** Every step keeps the invariant, whichever process takes it and whatever fails. */
  lemma StepKeepsBase(st: State, step: Step)
    requires BaseInv(st) && Enabled(st, step)
    ensures BaseInv(Do(st, step))
  {
    var st' := Do(st, step);
    StepGrows(st, step);
    StepKeepsTokens(st, step);
    forall key | key in st'.entries ensures EntryInv(st', key, st'.entries[key]) {
      StepKeepsEntry(st, step, key);
    }
    forall pid | pid in st'.readers ensures ReaderInv(st', st'.readers[pid]) {
      StepKeepsReaders(st, step, pid);
    }
    forall pid | pid in st'.invalidators ensures InvalidatorTimes(st', st'.invalidators[pid]) {
      StepKeepsInvalidators(st, step, pid);
    }
  }

  // ---------------------------------------------------------------------------
  // What every step keeps of an invalidation
  // ---------------------------------------------------------------------------

  /** No token crowned after the one the invalidator read was crowned before it began. */
  ghost predicate NewerAreFresh(st: State, current: Token, began: nat) {
    current in st.crowned
    && forall t | t in st.crowned && st.crowned[t] > st.crowned[current] :: st.crowned[t] >= began
  }

  /** Once it is done, a generation that is there was crowned no earlier than it began. */
  ghost predicate InvalidatorFresh(st: State, i: Invalidator) {
    match i.pc
    case Rotating(current) => NewerAreFresh(st, current, i.began)
    case Verifying(current) => NewerAreFresh(st, current, i.began)
    case Done(_) => st.current.Some? ==> st.current.value in st.crowned && st.crowned[st.current.value] >= i.began
    case _ => true
  }

  ghost predicate FreshInv(st: State) {
    forall pid | pid in st.invalidators :: InvalidatorFresh(st, st.invalidators[pid])
  }

  lemma OtherInvalidatorFresh(st: State, step: Step, i: Invalidator)
    requires TokensInv(st) && Enabled(st, step) && Grows(st, Do(st, step))
    requires InvalidatorTimes(st, i) && InvalidatorFresh(st, i)
    ensures InvalidatorFresh(Do(st, step), i)
  {
    hide Do, Enabled, Floor;
    TokenEffect(st, step);
  }

  /** A token that is current now has no newer one. */
  lemma CurrentIsNewest(st: State, st': State, i: Invalidator, ok: bool)
    requires TokensInv(st) && Grows(st, st') && SameTokens(st, st')
    ensures InvalidatorFresh(st', AfterReadCurrent(st, i, ok))
    ensures InvalidatorFresh(st', AfterPeekCurrent(st, i, ok))
  {
  }

  lemma AddedIsNewest(st: State, st': State, i: Invalidator, token: Token, outcome: AddOutcome)
    requires TokensInv(st) && Grows(st, st')
    requires outcome == Added ==> Crowns(st, st', token, st.Now())
    ensures InvalidatorFresh(st', AfterAddCurrent(i, token, outcome))
  {
  }

  /** The confirming read must differ from the first one: the token it finds is a newer one. */
  lemma VerifyIsFresh(st: State, st': State, i: Invalidator, ok: bool)
    requires TokensInv(st) && Grows(st, st') && SameTokens(st, st') && st'.current == st.current
    requires InvalidatorTimes(st, i) && InvalidatorFresh(st, i) && i.pc.Verifying?
    ensures InvalidatorFresh(st', AfterVerify(st, i, ok))
  {
  }

  lemma AddIsCrowned(st: State, step: Step)
    requires Enabled(st, step) && step.AddCurrent?
    ensures step.outcome == Added ==> Crowns(st, Do(st, step), step.token, st.Now())
  {
  }

  lemma NothingIsStale(st: State, i: Invalidator)
    requires i.pc == Starting
    ensures InvalidatorFresh(st, i)
  {
  }

  lemma RotatedIsFresh(st: State, i: Invalidator, ok: bool)
    requires InvalidatorFresh(st, i) && i.pc.Rotating?
    ensures InvalidatorFresh(st, i.(pc := if ok then Verifying(i.pc.current) else Failed))
  {
  }

  lemma ActingInvalidatorFresh(st: State, step: Step)
    requires TokensInv(st) && Enabled(st, step) && IsInvalidatorStep(step) && Grows(st, Do(st, step))
    requires step.StartInvalidate? ||
             (InvalidatorTimes(st, st.invalidators[step.pid]) && InvalidatorFresh(st, st.invalidators[step.pid]))
    ensures InvalidatorFresh(Do(st, step), InvalidatorAfter(st, step))
  {
    var st' := Do(st, step);
    TokenEffect(st, step);
    hide Do, TokensInv, InvalidatorFresh, InvalidatorTimes, Grows;
    match step
    case StartInvalidate(_) => NothingIsStale(st', InvalidatorAfter(st, step));
    case PeekCurrent(pid, ok) => CurrentIsNewest(st, st', st.invalidators[pid], ok);
    case ReadCurrent(pid, ok) => CurrentIsNewest(st, st', st.invalidators[pid], ok);
    case AddCurrent(pid, token, outcome) =>
      AddIsCrowned(st, step);
      AddedIsNewest(st, st', st.invalidators[pid], token, outcome);
    case Rotate(pid, _, _, ok) =>
      OtherInvalidatorFresh(st, step, st.invalidators[pid]);
      RotatedIsFresh(st', st.invalidators[pid], ok);
    case Verify(pid, ok) => VerifyIsFresh(st, st', st.invalidators[pid], ok);
  }

  /** Every step keeps it, evictions included. */
  lemma StepKeepsFresh(st: State, step: Step)
    requires BaseInv(st) && FreshInv(st) && Enabled(st, step)
    ensures FreshInv(Do(st, step))
  {
    hide Backend, ReaderAfter, InvalidatorAfter, InvalidatorFresh, Grows, ReaderInv, EntryInv, TokensInv;
    var st' := Do(st, step);
    StepGrows(st, step);
    forall pid | pid in st'.invalidators ensures InvalidatorFresh(st', st'.invalidators[pid]) {
      if IsInvalidatorStep(step) && pid == step.pid {
        ActingInvalidatorFresh(st, step);
      } else {
        OtherInvalidatorFresh(st, step, st.invalidators[pid]);
      }
    }
  }

  /** After the peek a call keeps its time, its floor and, but for a new one, its token. */
  lemma CallIsKept(st: State, step: Step, pid: Pid)
    requires Enabled(st, step) && pid in st.readers && st.readers[pid].pc != Peeking
    ensures pid in Do(st, step).readers
    ensures var r, r' := st.readers[pid], Do(st, step).readers[pid];
            && r'.pc != Peeking && r'.floor == r.floor && r'.peekedAt == r.peekedAt
            && (r'.generation == r.generation || (r'.generation.Some? && r'.generation.value !in st.issued))
  {
    if IsReaderStep(step) && step.pid == pid {
      ActingCallIsKept(st, step);
    }
  }

  lemma ActingCallIsKept(st: State, step: Step)
    requires Enabled(st, step) && IsReaderStep(step) && !step.StartResolve? && !step.Peek?
    ensures var r, r' := st.readers[step.pid], ReaderAfter(st, step);
            && SameCall(r, r')
            && (r'.generation == r.generation
                || (step.AddInitial? && r'.generation.Some? && r'.generation.value !in st.issued))
  {
  }

  lemma {:induction false} RunKeepsBase(states: seq<State>, steps: seq<Step>, n: nat)
    requires Run(states, steps) && n < |states|
    ensures BaseInv(states[n]) && |states[n].history| == n + 1
  {
    if n > 0 {
      RunKeepsBase(states, steps, n - 1);
      assert StepAt(states, steps, n - 1);
      StepKeepsBase(states[n - 1], steps[n - 1]);
    }
  }

  lemma {:induction false} RunKeepsFresh(states: seq<State>, steps: seq<Step>, n: nat)
    requires Run(states, steps) && n < |states|
    ensures FreshInv(states[n])
  {
    hide Do, Enabled;
    if n > 0 {
      RunKeepsFresh(states, steps, n - 1);
      RunKeepsBase(states, steps, n - 1);
      assert StepAt(states, steps, n - 1);
      StepKeepsFresh(states[n - 1], steps[n - 1]);
    }
  }

  // ---------------------------------------------------------------------------
  // Freedom from stale results
  // ---------------------------------------------------------------------------

  /** What the sources hold when the run is at step `k`. */
  function SourcesAt(st: State): Sources
    requires st.history != []
  {
    st.history[|st.history| - 1]
  }

  lemma {:induction false} HistoryIsThePast(states: seq<State>, steps: seq<Step>, k: nat, n: nat)
    requires Run(states, steps) && k <= n < |states|
    ensures |states[n].history| == n + 1 && |states[k].history| == k + 1
    ensures states[n].history[k] == SourcesAt(states[k])
  {
    RunKeepsBase(states, steps, k);
    RunKeepsBase(states, steps, n);
    if k < n {
      HistoryIsThePast(states, steps, k, n - 1);
      assert StepAt(states, steps, n - 1);
    }
  }

  lemma RunStep(states: seq<State>, steps: seq<Step>, n: nat)
    requires Run(states, steps) && 0 < n < |states|
    ensures BaseInv(states[n - 1]) && |states[n - 1].history| == n
    ensures Enabled(states[n - 1], steps[n - 1]) && states[n] == Do(states[n - 1], steps[n - 1])
  {
    RunKeepsBase(states, steps, n - 1);
    assert StepAt(states, steps, n - 1);
  }

  /** An invalidator keeps its beginning, and once it is done nothing about it changes. */
  lemma InvalidatorIsKept(st: State, step: Step, i: Pid)
    requires Enabled(st, step) && i in st.invalidators
    ensures i in Do(st, step).invalidators
    ensures var j, j' := st.invalidators[i], Do(st, step).invalidators[i];
            j'.began == j.began && (j.pc.Done? ==> j' == j)
  {
  }

  lemma {:induction false} BeganIsRemembered(states: seq<State>, steps: seq<Step>, i: Pid, began: nat, n: nat)
    requires Run(states, steps) && began < n < |states|
    requires steps[began] == StartInvalidate(i)
    ensures i in states[n].invalidators && states[n].invalidators[i].began == began
    decreases n
  {
    RunStep(states, steps, n);
    if n > began + 1 {
      BeganIsRemembered(states, steps, i, began, n - 1);
      InvalidatorIsKept(states[n - 1], steps[n - 1], i);
    }
  }

  lemma {:induction false} InvalidationIsRemembered(
      states: seq<State>, steps: seq<Step>, i: Pid, began: nat, verified: nat, n: nat)
    requires Run(states, steps) && began < verified < n < |states|
    requires steps[began] == StartInvalidate(i)
    requires steps[verified].Verify? && steps[verified].pid == i
    requires i in states[verified + 1].invalidators && states[verified + 1].invalidators[i].pc.Done?
    ensures i in states[n].invalidators && states[n].invalidators[i] == Invalidator(Done(verified), began)
    decreases n
  {
    RunStep(states, steps, n);
    if n == verified + 1 {
      BeganIsRemembered(states, steps, i, began, n);
    } else {
      InvalidationIsRemembered(states, steps, i, began, verified, n - 1);
      InvalidatorIsKept(states[n - 1], steps[n - 1], i);
    }
  }

  /** Once a resolver has read the generation, the moment and the floor of its readings are fixed. */
  lemma {:induction false} PeekIsRemembered(states: seq<State>, steps: seq<Step>, r: Pid, peeked: nat, n: nat)
    requires Run(states, steps) && peeked < n < |states|
    requires steps[peeked].Peek? && steps[peeked].pid == r
    ensures r in states[peeked + 1].readers && r in states[n].readers && states[n].readers[r].pc != Peeking
    ensures states[n].readers[r].peekedAt == peeked
    ensures states[n].readers[r].floor == states[peeked + 1].readers[r].floor
    decreases n
  {
    RunStep(states, steps, n);
    if n > peeked + 1 {
      PeekIsRemembered(states, steps, r, peeked, n - 1);
      CallIsKept(states[n - 1], steps[n - 1], r);
    }
  }

  /** What a resolver has got is what its sources held since the floor of its readings. */
  lemma SeenIsHeldSince(states: seq<State>, steps: seq<Step>, r: Pid, began: nat, n: nat, k: nat)
    requires Run(states, steps) && n < |states| && r in states[n].readers
    requires began <= states[n].readers[r].floor && k < |states[n].readers[r].seen|
    ensures HeldSince(states, began, n, states[n].readers[r].seen[k])
  {
    RunKeepsBase(states, steps, n);
    var reading := states[n].readers[r].seen[k];
    assert ReaderInv(states[n], states[n].readers[r]);
    HistoryIsThePast(states, steps, reading.at, n);
    assert Held(SourcesAt(states[reading.at]), reading.source) == reading.value;
  }

  /** A resolver that was about to store a reading from before `began` added this token. */
  ghost predicate AddedWithOld(states: seq<State>, steps: seq<Step>, token: Token, began: nat, n: nat) {
    exists k :: 0 <= k < n <= |steps| && k < |states| && AddsOld(states[k], steps[k], token, began)
  }

  ghost predicate AddsOld(st: State, step: Step, token: Token, began: nat) {
    step.AddInitial? && step.token == token && step.pid in st.readers && Oldest(st.readers[step.pid]) < began
  }

  lemma {:induction false} SinceIsExplained(states: seq<State>, steps: seq<Step>, token: Token, began: nat, n: nat)
    requires Run(states, steps) && n < |states| && token in states[n].crowned && states[n].crowned[token] >= began
    requires !AddedWithOld(states, steps, token, began, n)
    ensures Floor(states[n], token) >= began
  {
    RunKeepsBase(states, steps, n);
    if n > 0 {
      RunStep(states, steps, n);
      var st, step := states[n - 1], steps[n - 1];
      StepGrows(st, step);
      if token in st.crowned {
        SinceIsExplained(states, steps, token, began, n - 1);
      } else {
        TokenEffect(st, step);
        assert !AddsOld(states[n - 1], steps[n - 1], token, began);
      }
    }
  }

  /** The token that the resolver read was added by one with a reading from before `began`. */
  ghost predicate ReadsOldToken(states: seq<State>, steps: seq<Step>, r: Pid, began: nat, peeked: nat) {
    && peeked + 1 < |states| && r in states[peeked + 1].readers
    && var token := states[peeked + 1].readers[r].generation;
    && token.Some? && AddedWithOld(states, steps, token.value, began, peeked)
  }

  lemma PeekOf(st: State, step: Step)
    requires Enabled(st, step) && step.Peek?
    ensures step.pid in st.readers && st.readers[step.pid].pc == Peeking
    ensures Do(st, step).readers == st.readers[step.pid := AfterPeek(st, st.readers[step.pid], step.ok)]
  {
    hide AfterPeek, InvalidatorAfter;
  }

  lemma AfterPeekBinds(st: State, r: Reader, ok: bool)
    requires st.history != [] && r.pc == Peeking && PcInv(r)
    ensures var r' := AfterPeek(st, r, ok);
            && r'.pc != Peeking && r'.seen == []
            && (r'.generation == None ==> r'.floor == st.Now())
            && (r'.generation.Some? ==>
                  !r'.initialize && st.current == r'.generation && r'.floor == Floor(st, r'.generation.value))
  {
    hide Floor;
  }

  /** A peek binds the resolver to what its token allows, or to the moment of the peek. */
  lemma PeekBinds(states: seq<State>, steps: seq<Step>, r: Pid, peeked: nat)
    requires Run(states, steps) && peeked < |steps| && steps[peeked].Peek? && steps[peeked].pid == r
    ensures r in states[peeked + 1].readers
    ensures var reader := states[peeked + 1].readers[r];
            && reader.pc != Peeking && reader.seen == []
            && (reader.generation == None ==> reader.floor == peeked)
            && (reader.generation.Some? ==>
                  && !reader.initialize
                  && states[peeked].current == reader.generation
                  && reader.floor == Floor(states[peeked], reader.generation.value))
  {
    hide Do, Enabled, AfterPeek, Floor, EntryInv, Sound, InvalidatorTimes;
    RunStep(states, steps, peeked + 1);
    var st, step := states[peeked], steps[peeked];
    PeekOf(st, step);
    assert ReaderInv(st, st.readers[r]);
    AfterPeekBinds(st, st.readers[r], step.ok);
  }

  /** An invalidator that started at step `began` and returned normally at step `verified`. */
  ghost predicate Invalidated(states: seq<State>, steps: seq<Step>, i: Pid, began: nat, verified: nat) {
    && began < verified < |steps| && verified + 1 < |states|
    && steps[began] == StartInvalidate(i)
    && steps[verified].Verify? && steps[verified].pid == i
    && i in states[verified + 1].invalidators && states[verified + 1].invalidators[i].pc.Done?
  }

  lemma DoneIsFresh(states: seq<State>, steps: seq<Step>, i: Pid, began: nat, verified: nat, n: nat)
    requires Run(states, steps) && Invalidated(states, steps, i, began, verified) && verified < n < |states|
    ensures var st := states[n];
            st.current.Some? ==> st.current.value in st.crowned && st.crowned[st.current.value] >= began
  {
    RunKeepsFresh(states, steps, n);
    InvalidationIsRemembered(states, steps, i, began, verified, n);
    assert InvalidatorFresh(states[n], states[n].invalidators[i]);
  }

  /**
    Take any run in which an invalidation starts at step `began` and returns normally,
    and a resolver that reads the generation at a later step `peeked`. Unless what it
    reads there was added by a resolver that had read its sources before `began`,
    whatever it has got for a source, from the cache or directly, is what the source
    held at some moment since `began`.
   */
  lemma StaleFreedom(states: seq<State>, steps: seq<Step>, i: Pid, r: Pid,
                     began: nat, verified: nat, peeked: nat, n: nat)
    requires Run(states, steps) && Invalidated(states, steps, i, began, verified) && verified < peeked < n < |states|
    requires steps[peeked].Peek? && steps[peeked].pid == r && !ReadsOldToken(states, steps, r, began, peeked)
    ensures r in states[n].readers && states[n].readers[r].floor >= began
    ensures forall k | 0 <= k < |states[n].readers[r].seen| ::
              HeldSince(states, began, n, states[n].readers[r].seen[k])
  {
    DoneIsFresh(states, steps, i, began, verified, peeked);
    PeekBinds(states, steps, r, peeked);
    PeekIsRemembered(states, steps, r, peeked, n);
    if states[peeked + 1].readers[r].generation.Some? {
      SinceIsExplained(states, steps, states[peeked + 1].readers[r].generation.value, began, peeked);
    }
    forall k | 0 <= k < |states[n].readers[r].seen| ensures HeldSince(states, began, n, states[n].readers[r].seen[k]) {
      SeenIsHeldSince(states, steps, r, began, n, k);
    }
  }

  /** No reading from before its crowning goes under the token. */
  ghost predicate Own(st: State, token: Token) {
    token in st.crowned && token in st.since && st.since[token] == st.crowned[token]
  }

  /** While nothing is evicted, what follows the token that the invalidator read was made by rotation. */
  ghost predicate KeyStays(st: State, i: Invalidator) {
    match i.pc
    case Rotating(current) => st.current.Some? && NewerAreOwn(st, current)
    case Verifying(current) => st.current.Some? && NewerAreOwn(st, current)
    case Done(_) => st.current.Some? && Own(st, st.current.value)
    case _ => true
  }

  ghost predicate NewerAreOwn(st: State, current: Token) {
    current in st.crowned && forall t | t in st.crowned && st.crowned[t] > st.crowned[current] :: Own(st, t)
  }

  lemma OtherKeyStays(st: State, step: Step, i: Invalidator)
    requires TokensInv(st) && Enabled(st, step) && Grows(st, Do(st, step)) && step != Evict
    requires KeyStays(st, i)
    ensures KeyStays(Do(st, step), i)
  {
    hide Do, Enabled;
    TokenEffect(st, step);
  }

  lemma KeyAtCurrent(st: State, st': State, i: Invalidator, ok: bool)
    requires TokensInv(st) && Grows(st, st') && SameTokens(st, st') && st'.current == st.current
    ensures KeyStays(st', AfterReadCurrent(st, i, ok)) && KeyStays(st', AfterPeekCurrent(st, i, ok))
  {
    hide Grows;
  }

  lemma KeyAtAdded(st: State, st': State, i: Invalidator, token: Token, outcome: AddOutcome)
    requires TokensInv(st) && (outcome == Added ==> Crowns(st, st', token, st.Now()))
    ensures KeyStays(st', AfterAddCurrent(i, token, outcome))
  {
  }

  lemma KeyAtVerified(st: State, st': State, i: Invalidator, ok: bool)
    requires TokensInv(st) && SameTokens(st, st') && st'.current == st.current
    requires KeyStays(st, i) && i.pc.Verifying?
    ensures KeyStays(st', AfterVerify(st, i, ok))
  {
  }

  lemma ActingKeyStays(st: State, step: Step)
    requires TokensInv(st) && Enabled(st, step) && IsInvalidatorStep(step) && Grows(st, Do(st, step))
    requires step.StartInvalidate? || KeyStays(st, st.invalidators[step.pid])
    ensures KeyStays(Do(st, step), InvalidatorAfter(st, step))
  {
    var st' := Do(st, step);
    TokenEffect(st, step);
    hide Do, TokensInv, KeyStays, Grows;
    match step
    case StartInvalidate(_) => NothingToKeep(st', InvalidatorAfter(st, step));
    case PeekCurrent(pid, ok) => KeyAtCurrent(st, st', st.invalidators[pid], ok);
    case ReadCurrent(pid, ok) => KeyAtCurrent(st, st', st.invalidators[pid], ok);
    case AddCurrent(pid, token, outcome) =>
      AddIsCrowned(st, step);
      KeyAtAdded(st, st', st.invalidators[pid], token, outcome);
    case Rotate(pid, _, _, ok) =>
      OtherKeyStays(st, step, st.invalidators[pid]);
      KeyAtRotated(st', st.invalidators[pid], ok);
    case Verify(pid, ok) => KeyAtVerified(st, st', st.invalidators[pid], ok);
  }

  lemma NothingToKeep(st: State, i: Invalidator)
    requires i.pc == Starting
    ensures KeyStays(st, i)
  {
  }

  lemma KeyAtRotated(st: State, i: Invalidator, ok: bool)
    requires KeyStays(st, i) && i.pc.Rotating?
    ensures KeyStays(st, i.(pc := if ok then Verifying(i.pc.current) else Failed))
  {
  }

  lemma {:induction false} RunKeepsKey(states: seq<State>, steps: seq<Step>, i: Pid, began: nat, n: nat)
    requires Run(states, steps) && began < n < |states| && steps[began] == StartInvalidate(i)
    requires forall k | began <= k < n :: steps[k] != Evict
    ensures i in states[n].invalidators && KeyStays(states[n], states[n].invalidators[i])
    decreases n
  {
    RunStep(states, steps, n);
    var st, step := states[n - 1], steps[n - 1];
    StepGrows(st, step);
    if n > began + 1 {
      RunKeepsKey(states, steps, i, began, n - 1);
      if IsInvalidatorStep(step) && step.pid == i {
        ActingKeyStays(st, step);
      } else {
        OtherKeyStays(st, step, st.invalidators[i]);
      }
    }
  }

  /** It is enough that the generation key stays from the start of the invalidation to the peek. */
  lemma StaleFreedomWithoutEviction(states: seq<State>, steps: seq<Step>, i: Pid, r: Pid,
                                    began: nat, verified: nat, peeked: nat, n: nat)
    requires Run(states, steps) && Invalidated(states, steps, i, began, verified) && verified < peeked < n < |states|
    requires steps[peeked].Peek? && steps[peeked].pid == r
    requires forall k | began <= k < peeked :: steps[k] != Evict
    ensures r in states[n].readers && states[n].readers[r].floor >= began
    ensures forall k | 0 <= k < |states[n].readers[r].seen| ::
              HeldSince(states, began, n, states[n].readers[r].seen[k])
  {
    DoneIsFresh(states, steps, i, began, verified, peeked);
    RunKeepsKey(states, steps, i, began, peeked);
    InvalidationIsRemembered(states, steps, i, began, verified, peeked);
    PeekBinds(states, steps, r, peeked);
    PeekIsRemembered(states, steps, r, peeked, n);
    forall k | 0 <= k < |states[n].readers[r].seen| ensures HeldSince(states, began, n, states[n].readers[r].seen[k]) {
      SeenIsHeldSince(states, steps, r, began, n, k);
    }
  }

  ghost predicate HeldSince(states: seq<State>, began: nat, n: nat, reading: Reading) {
    exists k :: began <= k <= n < |states| && states[k].history != []
                && Held(SourcesAt(states[k]), reading.source) == reading.value
  }

  // ---------------------------------------------------------------------------
  // Tokens never return
  // ---------------------------------------------------------------------------

  lemma {:induction false} CrownedStays(states: seq<State>, steps: seq<Step>, token: Token, j: nat, k: nat)
    requires Run(states, steps) && j <= k < |states|
    requires token in states[j].crowned && states[j].current != Some(token)
    ensures token in states[k].crowned && states[k].current != Some(token)
    decreases k
  {
    hide Do, Enabled;
    if j < k {
      CrownedStays(states, steps, token, j, k - 1);
      RunStep(states, steps, k);
      StepGrows(states[k - 1], steps[k - 1]);
      TokenEffect(states[k - 1], steps[k - 1]);
    }
  }

  /** In every run, evictions included: a token that stopped reigning never reigns again. */
  lemma TokensNeverReturn(states: seq<State>, steps: seq<Step>, token: Token, i: nat, j: nat, k: nat)
    requires Run(states, steps) && i < j <= k < |states|
    requires states[i].current == Some(token) && states[j].current != Some(token)
    ensures states[k].current != Some(token)
  {
    RunKeepsBase(states, steps, i);
    CrownedIsKept(states, steps, token, i, j);
    CrownedStays(states, steps, token, j, k);
  }

  lemma {:induction false} CrownedIsKept(states: seq<State>, steps: seq<Step>, token: Token, i: nat, j: nat)
    requires Run(states, steps) && i <= j < |states| && token in states[i].crowned
    ensures token in states[j].crowned
    decreases j
  {
    hide Do, Enabled;
    if i < j {
      CrownedIsKept(states, steps, token, i, j - 1);
      RunStep(states, steps, j);
      StepGrows(states[j - 1], steps[j - 1]);
    }
  }

  /**
    So nothing that is stored under such a token, however late, is looked up by a
    resolver that reads the generation afterwards.
   */
  lemma {:induction false} LatePublicationsAreUnread(
      states: seq<State>, steps: seq<Step>, token: Token, r: Pid, i: nat, j: nat, peeked: nat, n: nat)
    requires Run(states, steps) && i < j <= peeked < n < |states|
    requires states[i].current == Some(token) && states[j].current != Some(token)
    requires steps[peeked].Peek? && steps[peeked].pid == r
    ensures r in states[n].readers && states[n].readers[r].generation != Some(token)
    decreases n
  {
    hide Do, Enabled, Floor, EntryInv, ReaderInv, InvalidatorTimes;
    RunStep(states, steps, n);
    var st, step := states[n - 1], steps[n - 1];
    RunKeepsBase(states, steps, i);
    if n == peeked + 1 {
      TokensNeverReturn(states, steps, token, i, j, peeked);
      PeekBinds(states, steps, r, peeked);
    } else {
      LatePublicationsAreUnread(states, steps, token, r, i, j, peeked, n - 1);
      PeekIsRemembered(states, steps, r, peeked, n - 1);
      CrownedIsKept(states, steps, token, i, n - 1);
      UnreadIsKept(st, step, r, token);
    }
  }

  lemma UnreadIsKept(st: State, step: Step, r: Pid, token: Token)
    requires TokensInv(st) && Enabled(st, step) && token in st.crowned
    requires r in st.readers && st.readers[r].pc != Peeking && st.readers[r].generation != Some(token)
    ensures r in Do(st, step).readers && Do(st, step).readers[r].generation != Some(token)
  {
    CallIsKept(st, step, r);
  }

  // ---------------------------------------------------------------------------
  // Transparency
  // ---------------------------------------------------------------------------

  /** `resolve` without a cache: the first source that has the template. */
  function FirstHit(sources: Sources, slots: seq<Slot>): Value {
    if slots == [] then Missing
    else if Held(sources, slots[0].source).Found? then Held(sources, slots[0].source)
    else FirstHit(sources, slots[1..])
  }

  lemma {:induction false} FirstHitBehindMisses(sources: Sources, slots: seq<Slot>, k: nat)
    requires k <= |slots|
    requires forall j | 0 <= j < k :: Held(sources, slots[j].source) == Missing
    ensures FirstHit(sources, slots) == FirstHit(sources, slots[k..])
  {
    if k > 0 {
      FirstHitBehindMisses(sources, slots, k - 1);
      assert slots[k - 1..][0] == slots[k - 1] && slots[k - 1..][1..] == slots[k..];
    } else {
      assert slots[0..] == slots;
    }
  }

  /** What a call that ended normally hands to its caller. */
  function Answer(r: Reader): Value
    requires r.pc == Returned || r.pc == NotFound
  {
    if r.pc == Returned && r.seen != [] then r.seen[|r.seen| - 1].value else Missing
  }

  /** Without a change, what the sources held at every moment since is what they hold. */
  lemma {:induction false} SourcesAreFixed(states: seq<State>, steps: seq<Step>, from: nat, n: nat)
    requires Run(states, steps) && from <= n < |states|
    requires forall k | from <= k < n :: !steps[k].Change?
    ensures |states[n].history| == n + 1
    ensures forall k | from <= k <= n :: states[n].history[k] == SourcesAt(states[n])
    decreases n
  {
    RunKeepsBase(states, steps, n);
    if from < n {
      SourcesAreFixed(states, steps, from, n - 1);
      RunStep(states, steps, n);
    }
  }

  /**
    A resolve that ends normally answers like the loop without a cache, from any state a
    run can reach, if no source has changed since the earliest of the readings it got:
    cached misses, failed and lost operations, expiry and eviction included.
   */
  lemma Transparency(states: seq<State>, steps: seq<Step>, r: Pid, from: nat, n: nat)
    requires Run(states, steps) && from <= n < |states| && r in states[n].readers
    requires forall k | from <= k < n :: !steps[k].Change?
    requires states[n].readers[r].pc == Returned || states[n].readers[r].pc == NotFound
    requires forall k | 0 <= k < |states[n].readers[r].seen| :: from <= states[n].readers[r].seen[k].at
    ensures states[n].history != []
    ensures Answer(states[n].readers[r]) == FirstHit(SourcesAt(states[n]), states[n].readers[r].slots)
  {
    RunKeepsBase(states, steps, n);
    SourcesAreFixed(states, steps, from, n);
    var reader := states[n].readers[r];
    assert ReaderInv(states[n], reader);
    SeenDecides(states[n], reader);
  }

  /** Readings of what the sources hold now decide the first hit. */
  lemma SeenDecides(st: State, r: Reader)
    requires st.history != [] && ReaderInv(st, r) && (r.pc == Returned || r.pc == NotFound)
    requires forall k | 0 <= k < |r.seen| :: Held(SourcesAt(st), r.seen[k].source) == r.seen[k].value
    ensures Answer(r) == FirstHit(SourcesAt(st), r.slots)
  {
    if r.pc == Returned {
      FirstHitBehindMisses(SourcesAt(st), r.slots, |r.seen| - 1);
    } else {
      assert forall j | 0 <= j < |r.slots| :: r.seen[j].value == Missing;
      FirstHitBehindMisses(SourcesAt(st), r.slots, |r.slots|);
    }
  }

  /**
    Whatever was changed and cached before: if the sources have not changed since an
    invalidation began that has returned normally, a resolver that reads the generation
    afterwards answers like the loop without a cache.
   */
  lemma TransparencyAfterInvalidation(states: seq<State>, steps: seq<Step>, i: Pid, r: Pid,
                                      began: nat, verified: nat, peeked: nat, n: nat)
    requires Run(states, steps) && Invalidated(states, steps, i, began, verified) && verified < peeked < n < |states|
    requires steps[peeked].Peek? && steps[peeked].pid == r && !ReadsOldToken(states, steps, r, began, peeked)
    requires forall k | began <= k < n :: !steps[k].Change?
    requires r in states[n].readers
    requires states[n].readers[r].pc == Returned || states[n].readers[r].pc == NotFound
    ensures states[n].history != []
    ensures Answer(states[n].readers[r]) == FirstHit(SourcesAt(states[n]), states[n].readers[r].slots)
  {
    StaleFreedom(states, steps, i, r, began, verified, peeked, n);
    RunKeepsBase(states, steps, n);
    assert ReaderInv(states[n], states[n].readers[r]);
    Transparency(states, steps, r, began, n);
  }

  // ---------------------------------------------------------------------------
  // Why the generation key must not be evicted
  // ---------------------------------------------------------------------------

  ghost function Last(states: seq<State>): State
    requires states != []
  {
    states[|states| - 1]
  }

  lemma Extend(states: seq<State>, steps: seq<Step>, step: Step) returns (states': seq<State>, steps': seq<Step>)
    requires Run(states, steps) && Enabled(Last(states), step)
    ensures Run(states', steps') && Last(states') == Do(Last(states), step) && steps' == steps + [step]
    ensures states <= states'
  {
    states', steps' := states + [Do(Last(states), step)], steps + [step];
    forall k | 0 <= k < |steps'| ensures StepAt(states', steps', k) {
      assert k < |steps| ==> StepAt(states, steps, k);
    }
  }

  /** The backend and the other processes as before, and one invalidator where it is now. */
  ghost predicate OnlyInvalidator(st: State, st': State, i: Pid, pc: InvalidatorPc) {
    && st'.readers == st.readers && st'.current == st.current && st'.issued == st.issued
    && i in st'.invalidators && st'.invalidators[i].pc == pc
  }

  lemma BeginInvalidation(states: seq<State>, steps: seq<Step>, i: Pid, token: Token)
    returns (states': seq<State>, steps': seq<Step>)
    requires Run(states, steps) && i !in Last(states).invalidators && Last(states).current == Some(token)
    ensures states <= states'
    ensures Run(states', steps') && steps' == steps + [StartInvalidate(i), PeekCurrent(i, true)]
    ensures OnlyInvalidator(Last(states), Last(states'), i, Rotating(token))
  {
    hide BaseInv, ReaderAfter, Floor;
    RunKeepsBase(states, steps, |states| - 1);
    states', steps' := Extend(states, steps, StartInvalidate(i));
    assert OnlyInvalidator(Last(states), Last(states'), i, Starting);
    states', steps' := Extend(states', steps', PeekCurrent(i, true));
  }

  lemma FinishInvalidation(states: seq<State>, steps: seq<Step>, i: Pid, token: Token, next: Token)
    returns (states': seq<State>, steps': seq<Step>)
    requires Run(states, steps) && i in Last(states).invalidators && Last(states).invalidators[i].pc == Rotating(token)
    requires next !in Last(states).issued && token != next
    ensures states <= states'
    ensures Run(states', steps') && steps' == steps + [Rotate(i, next, true, true), Verify(i, true)]
    ensures Last(states').current == Some(next) && Last(states').readers == Last(states).readers
    ensures Last(states').issued == Last(states).issued + {next}
    ensures i in Last(states').invalidators && Last(states').invalidators[i].pc.Done?
  {
    hide BaseInv, ReaderAfter, Floor;
    RunKeepsBase(states, steps, |states| - 1);
    states', steps' := Extend(states, steps, Rotate(i, next, true, true));
    assert Last(states').current == Some(next) && Last(states').readers == Last(states).readers;
    assert Last(states').invalidators[i].pc == Verifying(token);
    states', steps' := Extend(states', steps', Verify(i, true));
  }

  /** An invalidation that nothing disturbs returns normally, under a new generation. */
  lemma UndisturbedInvalidation(states: seq<State>, steps: seq<Step>, i: Pid, token: Token, next: Token)
    returns (states': seq<State>, steps': seq<Step>)
    requires Run(states, steps) && i !in Last(states).invalidators && Last(states).current == Some(token)
    requires next !in Last(states).issued
    ensures states <= states' && Run(states', steps')
    ensures steps' == steps + [StartInvalidate(i), PeekCurrent(i, true), Rotate(i, next, true, true), Verify(i, true)]
    ensures Last(states').current == Some(next) && Last(states').readers == Last(states).readers
    ensures i in Last(states').invalidators && Last(states').invalidators[i].pc.Done?
  {
    RunKeepsBase(states, steps, |states| - 1);
    states', steps' := BeginInvalidation(states, steps, i, token);
    states', steps' := FinishInvalidation(states', steps', i, token, next);
  }

  lemma FindNone(states: seq<State>, steps: seq<Step>, i: Pid)
    returns (states': seq<State>, steps': seq<Step>)
    requires Run(states, steps) && i !in Last(states).invalidators && Last(states).current == None
    ensures states <= states' && Run(states', steps') && steps' == steps + [StartInvalidate(i), PeekCurrent(i, true)]
    ensures OnlyInvalidator(Last(states), Last(states'), i, Creating)
  {
    hide BaseInv, ReaderAfter, Floor;
    RunKeepsBase(states, steps, |states| - 1);
    states', steps' := Extend(states, steps, StartInvalidate(i));
    assert OnlyInvalidator(Last(states), Last(states'), i, Starting);
    states', steps' := Extend(states', steps', PeekCurrent(i, true));
  }

  lemma AddOne(states: seq<State>, steps: seq<Step>, i: Pid, token: Token)
    returns (states': seq<State>, steps': seq<Step>)
    requires Run(states, steps) && i in Last(states).invalidators && Last(states).invalidators[i].pc == Creating
    requires Last(states).current == None && token !in Last(states).issued
    ensures states <= states' && Run(states', steps') && steps' == steps + [AddCurrent(i, token, Added)]
    ensures Last(states').readers == Last(states).readers && Last(states').issued == Last(states).issued + {token}
    ensures i in Last(states').invalidators && Last(states').invalidators[i].pc == Rotating(token)
  {
    hide BaseInv, ReaderAfter, Floor;
    RunKeepsBase(states, steps, |states| - 1);
    states', steps' := Extend(states, steps, AddCurrent(i, token, Added));
  }

  /** So does one that finds no generation: it adds one and rotates it. */
  lemma UndisturbedFirstInvalidation(states: seq<State>, steps: seq<Step>, i: Pid, token: Token, next: Token)
    returns (states': seq<State>, steps': seq<Step>)
    requires Run(states, steps) && i !in Last(states).invalidators && Last(states).current == None
    requires token !in Last(states).issued && next !in Last(states).issued && token != next
    ensures states <= states' && Run(states', steps')
    ensures steps' == steps + [StartInvalidate(i), PeekCurrent(i, true), AddCurrent(i, token, Added),
                               Rotate(i, next, true, true), Verify(i, true)]
    ensures Last(states').current == Some(next) && Last(states').readers == Last(states).readers
    ensures i in Last(states').invalidators && Last(states').invalidators[i].pc.Done?
  {
    RunKeepsBase(states, steps, |states| - 1);
    states', steps' := FindNone(states, steps, i);
    states', steps' := AddOne(states', steps', i, token);
    states', steps' := FinishInvalidation(states', steps', i, token, next);
  }

  lemma AddFirst(states: seq<State>, steps: seq<Step>, r: Pid, token: Token)
    returns (states': seq<State>, steps': seq<Step>)
    requires Run(states, steps) && r in Last(states).readers && Last(states).readers[r].pc == Adding
    requires Last(states).current == None && token !in Last(states).issued
    ensures states <= states'
    ensures Run(states', steps') && steps' == steps + [AddInitial(r, token, Added)]
    ensures Last(states').current == Some(token) && Last(states').readers.Keys == Last(states).readers.Keys
    ensures var reader := Last(states).readers[r];
            Last(states').readers[r] == reader.(generation := Some(token), pending := reader.initial, pc := Storing)
  {
    RunKeepsBase(states, steps, |states| - 1);
    states', steps' := Extend(states, steps, AddInitial(r, token, Added));
  }

  lemma StoreFirst(states: seq<State>, steps: seq<Step>, r: Pid, token: Token)
    returns (states': seq<State>, steps': seq<Step>)
    requires Run(states, steps) && r in Last(states).readers && Last(states).readers[r].pc == Storing
    requires Last(states).readers[r].pending != [] && Last(states).readers[r].generation == Some(token)
    ensures states <= states'
    ensures Run(states', steps') && steps' == steps + [Store(r, true, true)]
    ensures Last(states').current == Last(states).current && Last(states').readers.Keys == Last(states).readers.Keys
    ensures var reading := Last(states).readers[r].pending[0];
            && Key(reading.source, token) in Last(states').entries
            && Last(states').entries[Key(reading.source, token)] == reading
  {
    RunKeepsBase(states, steps, |states| - 1);
    states', steps' := Extend(states, steps, Store(r, true, true));
  }

  /** The first resolver adds a generation and stores its first reading under it. */
  lemma PublishOldReading(states: seq<State>, steps: seq<Step>, r: Pid, token: Token)
    returns (states': seq<State>, steps': seq<Step>)
    requires Run(states, steps) && r in Last(states).readers && Last(states).readers[r].pc == Adding
    requires Last(states).readers[r].initial != []
    requires Last(states).current == None && token !in Last(states).issued
    ensures states <= states'
    ensures Run(states', steps') && steps' == steps + [AddInitial(r, token, Added), Store(r, true, true)]
    ensures Last(states').current == Some(token)
    ensures var reading := Last(states).readers[r].initial[0];
            && Key(reading.source, token) in Last(states').entries
            && Last(states').entries[Key(reading.source, token)] == reading
    ensures Last(states').readers.Keys == Last(states).readers.Keys
  {
    hide Run, Do;
    states', steps' := AddFirst(states, steps, r, token);
    states', steps' := StoreFirst(states', steps', r, token);
  }

  /** A call of `resolve` starts; nothing else happens. */
  lemma StartCall(states: seq<State>, steps: seq<Step>, q: Pid, slots: seq<Slot>)
    returns (states': seq<State>, steps': seq<Step>)
    requires Run(states, steps) && q !in Last(states).readers
    ensures states <= states'
    ensures Run(states', steps') && steps' == steps + [StartResolve(q, slots, Raise)]
    ensures Last(states').(readers := map[], history := []) == Last(states).(readers := map[], history := [])
    ensures Last(states').readers == Last(states).readers[q := Reader(slots, Raise, Peeking, None, false, [], [], [], 0, 0)]
    ensures |Last(states').history| == |steps| + 2 && Last(states).history != [] && SourcesAt(Last(states')) == SourcesAt(Last(states))
  {
    RunKeepsBase(states, steps, |states| - 1);
    states', steps' := Extend(states, steps, StartResolve(q, slots, Raise));
  }

  lemma PeekToken(states: seq<State>, steps: seq<Step>, q: Pid, slot: Slot, token: Token)
    returns (states': seq<State>, steps': seq<Step>)
    requires Run(states, steps) && q in Last(states).readers && Last(states).current == Some(token) && slot.cached
    requires Last(states).readers[q] == Reader([slot], Raise, Peeking, None, false, [], [], [], 0, 0)
    ensures states <= states'
    ensures Run(states', steps') && steps' == steps + [Peek(q, true)]
    ensures Last(states').entries == Last(states).entries
    ensures q in Last(states').readers
    ensures var r := Last(states').readers[q];
            r.pc == Looking && r.generation == Some(token) && r.slots == [slot] && r.seen == []
  {
    hide BaseInv, InvalidatorAfter, AfterLookup, AfterRead, AfterConfirm, AfterAdd, WriteFailed, Published, Floor;
    RunKeepsBase(states, steps, |states| - 1);
    assert [slot][0].cached;
    states', steps' := Extend(states, steps, Peek(q, true));
  }

  lemma LookupAnswers(st: State, r: Reader, token: Token, reading: Reading)
    requires Key(reading.source, token) in st.entries && st.entries[Key(reading.source, token)] == reading
    requires r.pc == Looking && r.generation == Some(token) && r.slots == [Slot(reading.source, true)] && r.seen == []
    ensures var r' := AfterLookup(st, r, true);
            r'.seen == [reading] && r'.pc == if reading.value.Found? then Returned else NotFound
  {
    assert [] + [reading] == [reading];
  }

  lemma AnswerFromEntry(states: seq<State>, steps: seq<Step>, q: Pid, token: Token, reading: Reading)
    returns (states': seq<State>, steps': seq<Step>)
    requires Run(states, steps) && q in Last(states).readers
    requires Key(reading.source, token) in Last(states).entries
    requires Last(states).entries[Key(reading.source, token)] == reading
    requires var r := Last(states).readers[q];
             r.pc == Looking && r.generation == Some(token) && r.slots == [Slot(reading.source, true)] && r.seen == []
    ensures states <= states'
    ensures Run(states', steps') && steps' == steps + [Lookup(q, true)]
    ensures q in Last(states').readers
    ensures Last(states').readers[q].pc == if reading.value.Found? then Returned else NotFound
    ensures Last(states').readers[q].seen == [reading]
  {
    RunKeepsBase(states, steps, |states| - 1);
    var st := Last(states);
    LookupAnswers(st, st.readers[q], token, reading);
    hide Run, BaseInv, AfterLookup, Backend;
    states', steps' := Extend(states, steps, Lookup(q, true));
  }

  /**
    In any run that has lost the generation key while a resolver that saw none is
    about to add one, the next five operations answer a new call with the reading that
    resolver took before it, whatever was invalidated and changed in between.
   */
  lemma EvictionRevivesOldReadings(states: seq<State>, steps: seq<Step>, r: Pid, q: Pid, token: Token)
    returns (states': seq<State>, steps': seq<Step>)
    requires Run(states, steps) && r in Last(states).readers && Last(states).readers[r].pc == Adding
    requires Last(states).readers[r].initial != []
    requires Last(states).current == None && token !in Last(states).issued && q !in Last(states).readers
    ensures states <= states' && Run(states', steps')
    ensures var slot := Slot(Last(states).readers[r].initial[0].source, true);
            steps' == steps + [AddInitial(r, token, Added), Store(r, true, true)]
                      + [StartResolve(q, [slot], Raise), Peek(q, true), Lookup(q, true)]
    ensures q in Last(states').readers
    ensures Last(states').readers[q].pc == if Last(states).readers[r].initial[0].value.Found? then Returned else NotFound
    ensures Last(states').readers[q].seen == [Last(states).readers[r].initial[0]]
  {
    hide Do;
    var reading := Last(states).readers[r].initial[0];
    states', steps' := PublishOldReading(states, steps, r, token);
    var slot := Slot(reading.source, true);
    states', steps' := StartCall(states', steps', q, [slot]);
    states', steps' := PeekToken(states', steps', q, slot, token);
    states', steps' := AnswerFromEntry(states', steps', q, token, reading);
  }

  const FIRST: Pid := 1
  const SECOND: Pid := 2

  function Start(source: Source, content: string): State {
    State(None, map[], [map[source := Found(content)]], {}, map[], map[], map[], map[])
  }

  /** A resolver that finds no generation, and a source that has the template. */
  lemma PeekNothing(states: seq<State>, steps: seq<Step>, q: Pid, slot: Slot)
    returns (states': seq<State>, steps': seq<Step>)
    requires Run(states, steps) && q in Last(states).readers && Last(states).current == None && slot.cached
    requires Last(states).readers[q] == Reader([slot], Raise, Peeking, None, false, [], [], [], 0, 0)
    ensures states <= states'
    ensures Run(states', steps') && steps' == steps + [Peek(q, true)]
    ensures Last(states').(readers := map[], history := []) == Last(states).(readers := map[], history := [])
    ensures Last(states').readers ==
            Last(states).readers[q := Reader([slot], Raise, Looking, None, true, [], [], [], |steps|, |steps|)]
    ensures Last(states).history != [] && |Last(states').history| == |steps| + 2
    ensures SourcesAt(Last(states')) == SourcesAt(Last(states))
  {
    hide BaseInv, InvalidatorAfter, AfterLookup, AfterRead, AfterConfirm, AfterAdd, WriteFailed, Published, Floor;
    RunKeepsBase(states, steps, |states| - 1);
    assert [slot][0].cached;
    states', steps' := Extend(states, steps, Peek(q, true));
  }

  lemma ReadFound(states: seq<State>, steps: seq<Step>, q: Pid, slot: Slot)
    returns (states': seq<State>, steps': seq<Step>)
    requires Run(states, steps) && q in Last(states).readers && slot.cached && |Last(states).history| == |steps| + 1
    requires Last(states).readers[q].slots == [slot] && Last(states).readers[q].seen == []
    requires Last(states).readers[q].pc == Looking && Last(states).readers[q].generation == None
    requires Last(states).readers[q].initialize && Last(states).readers[q].initial == []
    requires Held(SourcesAt(Last(states)), slot.source).Found?
    ensures states <= states'
    ensures Run(states', steps') && steps' == steps + [Read(q, true, true)]
    ensures Last(states').(readers := map[], history := []) == Last(states).(readers := map[], history := [])
    ensures Last(states').readers.Keys == Last(states).readers.Keys && Last(states').readers[q].pc == Adding
    ensures Last(states').readers[q].initial ==
            [Reading(slot.source, Held(SourcesAt(Last(states)), slot.source), |steps|)]
  {
    states', steps' := Extend(states, steps, Read(q, true, true));
  }

  /** A resolver finds no generation and reads its source. */
  lemma FirstResolver(source: Source, content: string) returns (states: seq<State>, steps: seq<Step>)
    ensures Run(states, steps)
    ensures steps == [StartResolve(FIRST, [Slot(source, true)], Raise), Peek(FIRST, true), Read(FIRST, true, true)]
    ensures var st := Last(states);
            && st.current == None && st.issued == {} && st.invalidators == map[] && st.readers.Keys == {FIRST}
            && st.readers[FIRST].pc == Adding && st.readers[FIRST].initial == [Reading(source, Found(content), 2)]
  {
    var slot := Slot(source, true);
    states, steps := [Start(source, content)], [];
    hide Do, Enabled;
    states, steps := StartCall(states, steps, FIRST, [slot]);
    states, steps := PeekNothing(states, steps, FIRST, slot);
    states, steps := ReadFound(states, steps, FIRST, slot);
  }

  /** The source changes. */
  lemma ChangeSource(states: seq<State>, steps: seq<Step>, sources: Sources)
    returns (states': seq<State>, steps': seq<Step>)
    requires Run(states, steps)
    ensures states <= states'
    ensures Run(states', steps') && steps' == steps + [Change(sources)]
    ensures Last(states').(history := []) == Last(states).(history := [])
    ensures Last(states').history != [] && SourcesAt(Last(states')) == sources
  {
    RunKeepsBase(states, steps, |states| - 1);
    states', steps' := Extend(states, steps, Change(sources));
  }

  lemma LoseKey(states: seq<State>, steps: seq<Step>)
    returns (states': seq<State>, steps': seq<Step>)
    requires Run(states, steps)
    ensures states <= states'
    ensures Run(states', steps') && steps' == steps + [Evict]
    ensures Last(states').current == None && Last(states').issued == Last(states).issued
    ensures Last(states').readers == Last(states).readers
  {
    RunKeepsBase(states, steps, |states| - 1);
    states', steps' := Extend(states, steps, Evict);
  }

  lemma StartWithoutKey(states: seq<State>, steps: seq<Step>, i: Pid)
    returns (states': seq<State>, steps': seq<Step>)
    requires Run(states, steps) && i !in Last(states).invalidators && Last(states).current == None
    ensures states <= states'
    ensures Run(states', steps') && steps' == steps + [StartInvalidate(i), PeekCurrent(i, true)]
    ensures OnlyInvalidator(Last(states), Last(states'), i, Creating)
  {
    RunKeepsBase(states, steps, |states| - 1);
    states', steps' := Extend(states, steps, StartInvalidate(i));
    assert OnlyInvalidator(Last(states), Last(states'), i, Starting);
    states', steps' := Extend(states', steps', PeekCurrent(i, true));
  }

  /** An invalidator finds no generation and adds one. */
  lemma BeginWithoutKey(states: seq<State>, steps: seq<Step>, i: Pid, token: Token)
    returns (states': seq<State>, steps': seq<Step>)
    requires Run(states, steps) && i !in Last(states).invalidators && Last(states).current == None
    requires token !in Last(states).issued
    ensures states <= states'
    ensures Run(states', steps') && steps' == steps + [StartInvalidate(i), PeekCurrent(i, true), AddCurrent(i, token, Added)]
    ensures i in Last(states').invalidators && Last(states').invalidators[i].pc == Rotating(token)
    ensures Last(states').issued == Last(states).issued + {token} && Last(states').readers == Last(states).readers
  {
    states', steps' := StartWithoutKey(states, steps, i);
    RunKeepsBase(states', steps', |states'| - 1);
    states', steps' := Extend(states', steps', AddCurrent(i, token, Added));
  }

  /** After the change: an invalidation that returns normally, and the loss of its generation. */
  lemma InvalidateAndLose(states: seq<State>, steps: seq<Step>, i: Pid, token: Token, next: Token)
    returns (states': seq<State>, steps': seq<Step>)
    requires Run(states, steps) && i !in Last(states).invalidators && Last(states).current == None
    requires token !in Last(states).issued && next !in Last(states).issued && token != next
    ensures states <= states' && Run(states', steps')
    ensures steps' == steps + [StartInvalidate(i), PeekCurrent(i, true), AddCurrent(i, token, Added)]
                      + [Rotate(i, next, true, true), Verify(i, true)] + [Evict]
    ensures Invalidated(states', steps', i, |steps|, |steps| + 4)
    ensures Last(states').current == None && Last(states').readers == Last(states).readers
    ensures Last(states').issued == Last(states).issued + {token, next}
  {
    hide Do;
    states', steps' := BeginWithoutKey(states, steps, i, token);
    states', steps' := FinishInvalidation(states', steps', i, token, next);
    ghost var done := states';
    states', steps' := LoseKey(states', steps');
    assert states'[|steps| + 5] == Last(done);
  }

  /**
    A run in which stale freedom fails: a resolver reads its source before the source is
    changed and an invalidation of it returns normally; the generation is lost, the
    resolver adds one and stores its reading, and a later call gets what the source has
    not held since the invalidation began.
   */
  lemma EvictionBreaksStaleFreedom(source: Source, before: string, after: string)
    returns (states: seq<State>, steps: seq<Step>, began: nat, verified: nat, peeked: nat)
    requires before != after
    ensures Run(states, steps) && Invalidated(states, steps, FIRST, began, verified)
    ensures verified < peeked < |steps| && steps[peeked] == Peek(SECOND, true)
    ensures SECOND in Last(states).readers && Last(states).readers[SECOND].pc == Returned
    ensures Last(states).readers[SECOND].seen != []
    ensures !HeldSince(states, began, |steps|, Last(states).readers[SECOND].seen[0])
  {
    hide Do;
    states, steps := FirstResolver(source, before);
    states, steps := ChangeSource(states, steps, map[source := Found(after)]);
    ghost var changed, upTo := states, steps;
    states, steps := InvalidateAndLose(states, steps, FIRST, 0, 1);
    began, verified, peeked := 4, 8, 13;
    ghost var lost, until := states, steps;
    states, steps := EvictionRevivesOldReadings(states, steps, FIRST, SECOND, 2);
    assert states[4] == Last(changed);
    OldReadingIsNotHeld(states, steps, source, after, Reading(source, Found(before), 2));
  }

  lemma OldReadingIsNotHeld(states: seq<State>, steps: seq<Step>, source: Source, content: string, reading: Reading)
    requires Run(states, steps) && 4 < |states| && forall k | 4 <= k < |steps| :: !steps[k].Change?
    requires states[4].history != [] && SourcesAt(states[4]) == map[source := Found(content)]
    requires reading.source == source && reading.value != Found(content)
    ensures !HeldSince(states, 4, |steps|, reading)
  {
    SourcesAreFixed(states, steps, 4, |steps|);
    HistoryIsThePast(states, steps, 4, |steps|);
    forall k | 4 <= k <= |steps|
      ensures states[k].history != [] && Held(SourcesAt(states[k]), source) == Found(content)
    {
      HistoryIsThePast(states, steps, k, |steps|);
    }
  }
}
