/** The guard over the files a local schema refers to: a bounded worklist over locations. */
module SchemaGuard {
  import opened Wrappers

  const MAX_SCHEMA_FILES := 256

  type Location = string
  type Path = string

  /**
    A reference element: one that overrides declarations, one without a location, one
    that is remote or no plain local path, or a plain local one.
   */
  datatype Reference = Override | NoLocation | NotPlain | Local(location: string)

  datatype Document = Unreadable | HasDoctype | Document(references: seq<Reference>)

  /**
    Files as the guard sees them. `join` puts a reference beside the location of the file
    that holds it; `resolve` follows links; `inside` says what lies under the root.
   */
  datatype Files = Files(
    join: (Location, string) -> Location, resolve: Location -> Option<Path>, inside: Path -> bool, read: Path -> Document)

  datatype Failure = SchemaInvalid | ForbiddenDeclaration | ForbiddenReference | TooManyFiles

  datatype Result = Ok(visited: set<Path>) | Err(failure: Failure)

  /** The document at a location, if it can be read. */
  function At(fs: Files, l: Location): Document {
    match fs.resolve(l)
    case None => Unreadable
    case Some(path) => fs.read(path)
  }

  predicate LeadsTo(fs: Files, l: Location, r: Reference, m: Location) {
    r.Local? && fs.join(l, r.location) == m
  }

  /** Some reference of the document at `l` leads to `m`. */
  ghost predicate Refers(fs: Files, l: Location, m: Location) {
    At(fs, l).Document? && exists i :: 0 <= i < |At(fs, l).references| && LeadsTo(fs, l, At(fs, l).references[i], m)
  }

  ghost predicate ReachedIn(fs: Files, entry: Location, l: Location, steps: nat)
    decreases steps
  {
    if steps == 0 then l == entry
    else exists m :: ReachedIn(fs, entry, m, steps - 1) && Refers(fs, m, l)
  }

  /** References lead from the entry point to a location, in some number of steps. */
  ghost predicate Reachable(fs: Files, entry: Location, l: Location) {
    exists steps: nat :: ReachedIn(fs, entry, l, steps)
  }

  /** A reference that the guard accepts, with its target inside the root. */
  predicate Accepts(fs: Files, l: Location, r: Reference) {
    match r
    case Override => false
    case NoLocation => true
    case NotPlain => false
    case Local(location) =>
      var target := fs.resolve(fs.join(l, location));
      target.Some? && fs.inside(target.value)
  }

  /** A file that the guard accepts, with all its references. */
  predicate Clean(fs: Files, l: Location) {
    At(fs, l).Document? && forall i | 0 <= i < |At(fs, l).references| :: Accepts(fs, l, At(fs, l).references[i])
  }

  lemma ReachedAtOnce(fs: Files, entry: Location)
    ensures Reachable(fs, entry, entry)
  {
    assert ReachedIn(fs, entry, entry, 0);
  }

  lemma ReachedByReference(fs: Files, entry: Location, l: Location, m: Location)
    requires Reachable(fs, entry, l) && Refers(fs, l, m)
    ensures Reachable(fs, entry, m)
  {
    var steps: nat :| ReachedIn(fs, entry, l, steps);
    assert ReachedIn(fs, entry, m, steps + 1);
  }

  /** A set that holds the references of its members holds all that is reachable from them. */
  ghost predicate Closed(fs: Files, locations: set<Location>) {
    forall l, m | l in locations && Refers(fs, l, m) :: m in locations
  }

  lemma {:induction false} ClosedHoldsReached(fs: Files, entry: Location, locations: set<Location>, l: Location, steps: nat)
    requires entry in locations && Closed(fs, locations) && ReachedIn(fs, entry, l, steps)
    ensures l in locations
    decreases steps
  {
    if steps > 0 {
      var m :| ReachedIn(fs, entry, m, steps - 1) && Refers(fs, m, l);
      ClosedHoldsReached(fs, entry, locations, m, steps - 1);
    }
  }

  /** The locations are exactly the reachable ones. */
  ghost predicate IsClosure(fs: Files, entry: Location, locations: set<Location>) {
    forall l :: l in locations <==> Reachable(fs, entry, l)
  }

  /** The files are exactly those at the locations. */
  ghost predicate FilesOf(fs: Files, locations: set<Location>, files: set<Path>) {
    && (forall l | l in locations :: fs.resolve(l).Some? && fs.resolve(l).value in files)
    && (forall p | p in files :: exists l :: l in locations && fs.resolve(l) == Some(p))
  }

  // ---------------------------------------------------------------------------
  // The worklist
  // ---------------------------------------------------------------------------

  datatype Pending = Pending(located: Location, current: Path)

  ghost predicate Holds(pending: seq<Pending>, l: Location) {
    exists i :: 0 <= i < |pending| && pending[i].located == l
  }

  ghost predicate PendingSound(fs: Files, pending: seq<Pending>, scheduled: set<Location>) {
    forall i | 0 <= i < |pending| :: pending[i].located in scheduled && fs.resolve(pending[i].located) == Some(pending[i].current)
  }

  /** Every scheduled location is pending, or inspected with all its references scheduled. */
  ghost predicate Covered(fs: Files, pending: seq<Pending>, scheduled: set<Location>, done: set<Location>) {
    && done <= scheduled
    && (forall l | l in scheduled :: l in done || Holds(pending, l))
    && (forall l, m | l in done && Refers(fs, l, m) :: m in scheduled)
    && (forall l | l in done :: Clean(fs, l))
  }

  ghost predicate AllReached(fs: Files, entry: Location, scheduled: set<Location>) {
    forall l | l in scheduled :: Reachable(fs, entry, l)
  }

  /** The first `n` references of the document are accepted, and their targets scheduled. */
  ghost predicate Inspected(fs: Files, l: Location, n: nat, scheduled: set<Location>)
    requires At(fs, l).Document? && n <= |At(fs, l).references|
  {
    forall i | 0 <= i < n ::
      && Accepts(fs, l, At(fs, l).references[i])
      && (At(fs, l).references[i].Local? ==> fs.join(l, At(fs, l).references[i].location) in scheduled)
  }

  /** Why the guard refuses: a reachable file with an offence, or more locations than the limit. */
  ghost predicate Justified(fs: Files, entry: Location, failure: Failure) {
    if failure == TooManyFiles then
      exists locations: set<Location> :: AllReached(fs, entry, locations) && |locations| > MAX_SCHEMA_FILES
    else exists l :: Reachable(fs, entry, l) && !Clean(fs, l)
  }

  /** One reference: the failure it causes, or the location to add to the schedule if it is new. */
  method Inspect(fs: Files, l: Location, r: Reference) returns (failure: Option<Failure>, target: Option<Pending>)
    ensures failure.None? <==> Accepts(fs, l, r)
    ensures failure.Some? ==> failure.value != TooManyFiles
    ensures failure.None? && r.Local? ==>
              target.Some? && target.value.located == fs.join(l, r.location)
              && fs.resolve(target.value.located) == Some(target.value.current)
    ensures failure.None? && !r.Local? ==> target.None?
  {
    failure, target := None, None;
    match r
    case Override => failure := Some(ForbiddenReference);
    case NoLocation =>
    case NotPlain => failure := Some(ForbiddenReference);
    case Local(location) =>
      var lexical := fs.join(l, location);
      var resolved := fs.resolve(lexical);
      if resolved.None? {
        failure := Some(SchemaInvalid);
      } else if !fs.inside(resolved.value) {
        failure := Some(ForbiddenReference);
      } else {
        target := Some(Pending(lexical, resolved.value));
      }
  }

  /** Every scheduled location is inspected, is this one, or is pending. */
  ghost predicate AllHeld(pending: seq<Pending>, scheduled: set<Location>, done: set<Location>, l: Location) {
    forall m | m in scheduled :: m in done || m == l || Holds(pending, m)
  }

  lemma BeforeInspection(fs: Files, l: Location, pending: seq<Pending>, scheduled: set<Location>, done: set<Location>)
    requires At(fs, l).Document? && fs.resolve(l).Some?
    requires Covered(fs, pending + [Pending(l, fs.resolve(l).value)], scheduled, done)
    ensures AllHeld(pending, scheduled, done, l) && Inspected(fs, l, 0, scheduled)
  {
    forall m | m in scheduled && m !in done && m != l ensures Holds(pending, m) {
      var more := pending + [Pending(l, fs.resolve(l).value)];
      var i :| 0 <= i < |more| && more[i].located == m;
      assert pending[i].located == m;
    }
  }

  lemma AfterInspection(fs: Files, l: Location, pending: seq<Pending>, scheduled: set<Location>, done: set<Location>,
                        pending': seq<Pending>, scheduled': set<Location>)
    requires At(fs, l).Document? && Covered(fs, pending, scheduled, done) && l in scheduled && scheduled <= scheduled'
    requires AllHeld(pending', scheduled', done, l) && Inspected(fs, l, |At(fs, l).references|, scheduled')
    ensures Covered(fs, pending', scheduled', done + {l})
  {
    hide Holds;
  }

  /** A new location: everything that holds of the schedule still holds. */
  lemma OneMoreLocation(fs: Files, entry: Location, l: Location, n: nat, pending: seq<Pending>,
                        scheduled: set<Location>, done: set<Location>, p: Pending)
    requires At(fs, l).Document? && n < |At(fs, l).references| && Reachable(fs, entry, l)
    requires At(fs, l).references[n].Local? && p.located == fs.join(l, At(fs, l).references[n].location)
    requires fs.resolve(p.located) == Some(p.current) && Accepts(fs, l, At(fs, l).references[n])
    requires PendingSound(fs, pending, scheduled) && AllReached(fs, entry, scheduled)
    requires AllHeld(pending, scheduled, done, l)
    ensures PendingSound(fs, pending + [p], scheduled + {p.located}) && AllReached(fs, entry, scheduled + {p.located})
    ensures AllHeld(pending + [p], scheduled + {p.located}, done, l)
  {
    assert LeadsTo(fs, l, At(fs, l).references[n], p.located);
    ReachedByReference(fs, entry, l, p.located);
    HoldsMore(pending, p);
    hide Holds, Reachable, Accepts;
  }

  /** One more reference is inspected, and its target scheduled. */
  lemma InspectedMore(fs: Files, l: Location, n: nat, scheduled: set<Location>, more: set<Location>)
    requires At(fs, l).Document? && n < |At(fs, l).references| && scheduled <= more
    requires Inspected(fs, l, n, scheduled) && Accepts(fs, l, At(fs, l).references[n])
    requires var r := At(fs, l).references[n]; r.Local? ==> fs.join(l, r.location) in more
    ensures Inspected(fs, l, n + 1, more)
  {
  }

  lemma OffenceJustifies(fs: Files, entry: Location, l: Location, n: nat, failure: Failure)
    requires At(fs, l).Document? && n < |At(fs, l).references| && Reachable(fs, entry, l)
    requires !Accepts(fs, l, At(fs, l).references[n]) && failure != TooManyFiles
    ensures Justified(fs, entry, failure)
  {
    assert Reachable(fs, entry, l) && !Clean(fs, l);
  }

  lemma NumberJustifies(fs: Files, entry: Location, more: set<Location>)
    requires AllReached(fs, entry, more) && |more| > MAX_SCHEMA_FILES
    ensures Justified(fs, entry, TooManyFiles)
  {
  }

  /** The references of one file: what they add to the schedule. */
  method InspectAll(fs: Files, entry: Location, l: Location, pending: seq<Pending>, scheduled: set<Location>,
                    ghost done: set<Location>)
    returns (failure: Option<Failure>, pending': seq<Pending>, scheduled': set<Location>)
    requires At(fs, l).Document? && l in scheduled && |scheduled| <= MAX_SCHEMA_FILES
    requires PendingSound(fs, pending, scheduled) && AllReached(fs, entry, scheduled)
    requires Covered(fs, pending + [Pending(l, fs.resolve(l).value)], scheduled, done)
    ensures failure.Some? ==> Justified(fs, entry, failure.value)
    ensures failure.None? ==>
              && scheduled <= scheduled' && |scheduled| <= |scheduled'| <= MAX_SCHEMA_FILES
              && PendingSound(fs, pending', scheduled') && AllReached(fs, entry, scheduled')
              && Covered(fs, pending', scheduled', done + {l})
              && |pending'| - |pending| == |scheduled'| - |scheduled|
  {
    hide PendingSound, AllHeld, Inspected, Covered, Justified, Accepts, Reachable;
    assert Reachable(fs, entry, l);
    hide AllReached;
    pending', scheduled' := pending, scheduled;
    BeforeInspection(fs, l, pending, scheduled, done);
    var references := At(fs, l).references;
    var n := 0;
    while n < |references|
      invariant n <= |references| && scheduled <= scheduled' && |scheduled| <= |scheduled'| <= MAX_SCHEMA_FILES
      invariant PendingSound(fs, pending', scheduled') && AllReached(fs, entry, scheduled')
      invariant AllHeld(pending', scheduled', done, l)
      invariant Inspected(fs, l, n, scheduled')
      invariant |pending'| - |pending| == |scheduled'| - |scheduled|
    {
      var target;
      failure, target := Inspect(fs, l, references[n]);
      if failure.Some? {
        OffenceJustifies(fs, entry, l, n, failure.value);
        return;
      }
      var more := scheduled';
      if target.Some? && target.value.located !in scheduled' {
        more := scheduled' + {target.value.located};
        OneMoreLocation(fs, entry, l, n, pending', scheduled', done, target.value);
        if |scheduled'| >= MAX_SCHEMA_FILES {
          NumberJustifies(fs, entry, more);
          failure := Some(TooManyFiles);
          return;
        }
        pending' := pending' + [target.value];
      }
      InspectedMore(fs, l, n, scheduled', more);
      scheduled', n := more, n + 1;
    }
    AfterInspection(fs, l, pending + [Pending(l, fs.resolve(l).value)], scheduled, done, pending', scheduled');
    failure := None;
  }

  lemma HoldsMore(pending: seq<Pending>, p: Pending)
    ensures Holds(pending + [p], p.located)
    ensures forall l | Holds(pending, l) :: Holds(pending + [p], l)
  {
    assert (pending + [p])[|pending|] == p;
    forall l | Holds(pending, l) ensures Holds(pending + [p], l) {
      var i :| 0 <= i < |pending| && pending[i].located == l;
      assert (pending + [p])[i].located == l;
    }
  }

  /** Reads one file: the failure it causes before its references are looked at. */
  method ReadFile(fs: Files, l: Location, path: Path) returns (failure: Option<Failure>)
    requires fs.resolve(l) == Some(path)
    ensures failure.None? <==> At(fs, l).Document?
    ensures failure.Some? ==> failure.value != TooManyFiles
  {
    match fs.read(path)
    case Unreadable => failure := Some(SchemaInvalid);
    case HasDoctype => failure := Some(ForbiddenDeclaration);
    case Document(_) => failure := None;
  }

  lemma VisitedMore(fs: Files, done: set<Location>, visited: set<Path>, p: Pending)
    requires FilesOf(fs, done, visited) && fs.resolve(p.located) == Some(p.current)
    ensures FilesOf(fs, done + {p.located}, visited + {p.current})
  {
  }

  lemma TakenFromTheEnd(pending: seq<Pending>)
    requires pending != []
    ensures pending == pending[..|pending| - 1] + [pending[|pending| - 1]]
  {
  }

  lemma NextPending(fs: Files, entry: Location, rest: seq<Pending>, p: Pending, scheduled: set<Location>)
    requires PendingSound(fs, rest + [p], scheduled) && AllReached(fs, entry, scheduled)
    ensures PendingSound(fs, rest, scheduled)
    ensures p.located in scheduled && fs.resolve(p.located) == Some(p.current) && Reachable(fs, entry, p.located)
  {
    assert (rest + [p])[|rest|] == p;
    forall i | 0 <= i < |rest|
      ensures rest[i].located in scheduled && fs.resolve(rest[i].located) == Some(rest[i].current)
    {
      assert (rest + [p])[i] == rest[i];
    }
  }

  /** With nothing pending, the schedule is the closure. */
  lemma Finished(fs: Files, entry: Location, scheduled: set<Location>, done: set<Location>, visited: set<Path>)
    requires entry in scheduled && AllReached(fs, entry, scheduled)
    requires Covered(fs, [], scheduled, done) && FilesOf(fs, done, visited)
    ensures IsClosure(fs, entry, scheduled) && FilesOf(fs, scheduled, visited)
    ensures forall l | l in scheduled :: Clean(fs, l)
  {
    assert done == scheduled;
    forall l | Reachable(fs, entry, l) ensures l in scheduled {
      var steps: nat :| ReachedIn(fs, entry, l, steps);
      ClosedHoldsReached(fs, entry, scheduled, l, steps);
    }
  }

  /** Before the first file: the entry point alone is scheduled. */
  lemma Started(fs: Files, entry: Location, path: Path)
    requires fs.resolve(entry) == Some(path)
    ensures PendingSound(fs, [Pending(entry, path)], {entry}) && AllReached(fs, entry, {entry})
    ensures Covered(fs, [Pending(entry, path)], {entry}, {}) && FilesOf(fs, {}, {})
  {
    ReachedAtOnce(fs, entry);
    assert [Pending(entry, path)][0].located == entry;
  }

  /**
    `_guard_local_references`: it accepts exactly if every reachable file is clean and at
    most 256 locations are reachable, and then returns the files at these locations.
   */
  method GuardLocalReferences(fs: Files, entry: Location) returns (r: Result, ghost locations: set<Location>)
    ensures r.Ok? ==>
              && IsClosure(fs, entry, locations) && |locations| <= MAX_SCHEMA_FILES
              && FilesOf(fs, locations, r.visited)
              && forall l | l in locations :: Clean(fs, l)
    ensures r.Err? ==> Justified(fs, entry, r.failure)
  {
    hide Covered, AllReached, PendingSound, IsClosure, FilesOf, Reachable, ReachedIn;
    locations := {};
    var entrypoint := fs.resolve(entry);
    if entrypoint.None? {
      ReachedAtOnce(fs, entry);
      assert !Clean(fs, entry);
      return Err(SchemaInvalid), locations;
    }
    var pending := [Pending(entry, entrypoint.value)];
    var scheduled := {entry};
    var visited: set<Path> := {};
    ghost var done: set<Location> := {};
    Started(fs, entry, entrypoint.value);
    while pending != []
      invariant entry in scheduled && |scheduled| <= MAX_SCHEMA_FILES
      invariant PendingSound(fs, pending, scheduled) && AllReached(fs, entry, scheduled)
      invariant Covered(fs, pending, scheduled, done)
      invariant FilesOf(fs, done, visited)
      decreases MAX_SCHEMA_FILES - |scheduled|, |pending|
    {
      var p := pending[|pending| - 1];
      TakenFromTheEnd(pending);
      pending := pending[..|pending| - 1];
      NextPending(fs, entry, pending, p, scheduled);
      VisitedMore(fs, done, visited, p);
      visited := visited + {p.current};
      var failure := ReadFile(fs, p.located, p.current);
      if failure.Some? {
        assert !Clean(fs, p.located);
        return Err(failure.value), locations;
      }
      failure, pending, scheduled := InspectAll(fs, entry, p.located, pending, scheduled, done);
      if failure.Some? {
        return Err(failure.value), locations;
      }
      done := done + {p.located};
    }
    Finished(fs, entry, scheduled, done, visited);
    locations := scheduled;
    r := Ok(visited);
  }

  lemma SubsetSize(a: set<Location>, b: set<Location>)
    requires a <= b
    ensures |a| <= |b|
  {
    assert b == a + (b - a);
  }

  /** A refusal is never wrong: the reachable files are too many, or one of them is not clean. */
  lemma RefusalsAreRight(fs: Files, entry: Location, failure: Failure, locations: set<Location>)
    requires Justified(fs, entry, failure) && IsClosure(fs, entry, locations)
    ensures |locations| > MAX_SCHEMA_FILES || exists l :: l in locations && !Clean(fs, l)
  {
    if failure == TooManyFiles {
      var many: set<Location> :| AllReached(fs, entry, many) && |many| > MAX_SCHEMA_FILES;
      SubsetSize(many, locations);
    }
  }
}
