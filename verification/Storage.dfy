/**
 * The object store beside the catalog: uploads, commits, expiry, clean-up of scheduled files and
 * deletion of orphans, interleaved in any order and stopped anywhere.
 */
module Storage {
  import opened Prelude

  /** A location in the object store, as a path resolves to it. */
  type Location = string

  /** A row of the data-file, delete-file or scheduled-file relations. */
  datatype FileRow = FileRow(id: int, location: Location)

  function Locations(rows: set<FileRow>): set<Location> { set r | r in rows :: r.location }

  // ----- the two maintenance operations -----

  /** The objects of the store with the time each was last modified. */
  class ObjectStore {
    var objects: map<Location, int>

    constructor (objects: map<Location, int>)
      ensures this.objects == objects
    {
      this.objects := objects;
    }

    /** `delete_objects`; a location that is not there is passed over. */
    method DeleteObjects(locations: seq<Location>)
      modifies this
      ensures objects == old(objects) - (set l | l in locations)
    {
      ghost var before := objects;
      assert locations[..0] == [];
      for i := 0 to |locations|
        invariant objects == before - (set l | l in locations[..i])
      {
        assert locations[..i + 1] == locations[..i] + [locations[i]];
        objects := objects - {locations[i]};
      }
      assert locations[..|locations|] == locations;
    }

    /** `delete_orphaned_files_filtered`, given what the catalog references and what the listing returned. */
    method DeleteOrphanedFiles(referenced: set<Location>, listing: seq<(Location, int)>, maxAge: Option<int>, dryRun: bool)
      returns (orphans: seq<Location>)
      modifies this
      ensures orphans == Map(LocationOf(), Filter(IsOrphan(referenced, maxAge), listing))
      ensures forall l :: l in orphans <==>
                exists e :: e in listing && e.0 == l && l !in referenced && (maxAge.None? || e.1 < maxAge.value)
      ensures objects == if dryRun then old(objects) else old(objects) - (set l | l in orphans)
    {
      hide Map, Filter;
      orphans := [];
      assert listing[..0] == [];
      NoneListed(referenced, maxAge);
      for i := 0 to |listing|
        invariant objects == old(objects)
        invariant orphans == Map(LocationOf(), Filter(IsOrphan(referenced, maxAge), listing[..i]))
      {
        assert listing[..i + 1] == listing[..i] + [listing[i]];
        FilterAppend(IsOrphan(referenced, maxAge), listing[..i], [listing[i]]);
        MapAppend(LocationOf(), Filter(IsOrphan(referenced, maxAge), listing[..i]),
                  Filter(IsOrphan(referenced, maxAge), [listing[i]]));
        OneListed(referenced, maxAge, listing[i]);
        var (location, modified) := listing[i];
        if location in referenced { continue; }
        if maxAge.Some? && modified >= maxAge.value { continue; }
        orphans := orphans + [location];
      }
      assert listing[..|listing|] == listing;
      OrphansAre(referenced, listing, maxAge);
      if !dryRun {
        DeleteObjects(orphans);
      }
    }
  }

  function LocationOf(): ((Location, int)) -> Location { (e: (Location, int)) => e.0 }

  /** The orphans are the listed locations that nothing references and that are old enough. */
  lemma OrphansAre(referenced: set<Location>, listing: seq<(Location, int)>, maxAge: Option<int>)
    ensures forall l :: l in Map(LocationOf(), Filter(IsOrphan(referenced, maxAge), listing)) <==>
              exists e :: e in listing && e.0 == l && l !in referenced && (maxAge.None? || e.1 < maxAge.value)
  {
    MapMembers(LocationOf(), Filter(IsOrphan(referenced, maxAge), listing));
  }

  lemma NoneListed(referenced: set<Location>, maxAge: Option<int>)
    ensures Map(LocationOf(), Filter(IsOrphan(referenced, maxAge), [])) == []
  {
  }

  lemma OneListed(referenced: set<Location>, maxAge: Option<int>, e: (Location, int))
    ensures Map(LocationOf(), Filter(IsOrphan(referenced, maxAge), [e])) == if IsOrphan(referenced, maxAge)(e) then [e.0] else []
  {
  }

  function IsOrphan(referenced: set<Location>, maxAge: Option<int>): ((Location, int)) -> bool {
    (e: (Location, int)) => e.0 !in referenced && (maxAge.None? || e.1 < maxAge.value)
  }

  /** A scheduled row with the location its path resolves to and the time it was scheduled. */
  datatype Scheduled = Scheduled(row: FileRow, start: int)

  function Due(olderThan: Option<int>): Scheduled -> bool {
    (f: Scheduled) => olderThan.None? || f.start < olderThan.value
  }

  function ScheduledLocation(): Scheduled -> Location { (f: Scheduled) => f.row.location }

  function IdsOf(files: seq<Scheduled>): set<int> { set f | f in files :: f.row.id }

  function IdNotIn(ids: set<int>): Scheduled -> bool { (f: Scheduled) => f.row.id !in ids }

  lemma DueFiles(scheduled: seq<Scheduled>, olderThan: Option<int>)
    ensures forall f :: f in Filter(Due(olderThan), scheduled) <==> f in scheduled && (olderThan.None? || f.start < olderThan.value)
  {
  }

  /** The objects deleted are those of files scheduled before the limit; a row stays if nothing due has its id. */
  lemma CleanUpTakes(scheduled: seq<Scheduled>, olderThan: Option<int>)
    ensures
      var due := Filter(Due(olderThan), scheduled);
      && (forall p :: p in Map(ScheduledLocation(), due) <==>
            exists f :: f in scheduled && f.row.location == p && (olderThan.None? || f.start < olderThan.value))
      && forall f :: f in Filter(IdNotIn(IdsOf(due)), scheduled) <==>
           f in scheduled && forall g :: g in scheduled && g.row.id == f.row.id ==> olderThan.Some? && g.start >= olderThan.value
  {
    hide Map, Filter, Due;
    var due := Filter(Due(olderThan), scheduled);
    MapMembers(ScheduledLocation(), due);
    DueFiles(scheduled, olderThan);
  }

  /** `cleanup_old_files_filtered`: first the objects, then the rows, all by file id. */
  method CleanUpOldFiles(store: ObjectStore, scheduled: seq<Scheduled>, olderThan: Option<int>, dryRun: bool)
    returns (paths: seq<Location>, left: seq<Scheduled>)
    modifies store
    ensures paths == Map(ScheduledLocation(), Filter(Due(olderThan), scheduled))
    ensures dryRun ==> store.objects == old(store.objects) && left == scheduled
    ensures !dryRun ==> store.objects == old(store.objects) - (set l | l in paths)
    ensures !dryRun ==> left == Filter(IdNotIn(IdsOf(Filter(Due(olderThan), scheduled))), scheduled)
    ensures forall p :: p in paths <==>
              exists f :: f in scheduled && f.row.location == p && (olderThan.None? || f.start < olderThan.value)
    ensures !dryRun ==> forall f :: f in left <==>
              f in scheduled && forall g :: g in scheduled && g.row.id == f.row.id ==> olderThan.Some? && g.start >= olderThan.value
  {
    CleanUpTakes(scheduled, olderThan);
    var files := Filter(Due(olderThan), scheduled);
    paths := Map(ScheduledLocation(), files);
    if dryRun {
      return paths, scheduled;
    }
    store.DeleteObjects(paths);
    left := Filter(IdNotIn(IdsOf(files)), scheduled);
  }

  /** With an id per row, exactly the files that were due go, objects and rows. */
  lemma {:induction false} CleanUpTakesDueFiles(scheduled: seq<Scheduled>, olderThan: Option<int>)
    requires forall f, g :: f in scheduled && g in scheduled && f.row.id == g.row.id ==> f == g
    ensures Filter(IdNotIn(IdsOf(Filter(Due(olderThan), scheduled))), scheduled) == Filter(Not(Due(olderThan)), scheduled)
  {
    FilterCongruent(IdNotIn(IdsOf(Filter(Due(olderThan), scheduled))), Not(Due(olderThan)), scheduled);
  }

  // ----- the interleaving -----

  /** A clean-up that has read its rows and is deleting their objects. */
  datatype CleanUp = CleanUp(files: set<FileRow>, deleted: set<Location>)

  /** An orphan scan: reading file rows, then scheduled rows, then listing and deleting. */
  datatype Phase = ReadingScheduled | Listing
  datatype Scan = Scan(cutoff: Option<int>, phase: Phase, referenced: set<Location>, orphans: set<Location>)

  datatype World = World(
    now: int,
    objects: map<Location, int>,
    used: set<Location>,
    uncommitted: set<Location>,
    rows: set<FileRow>,
    scheduled: set<FileRow>,
    cleanUps: seq<CleanUp>,
    scans: seq<Scan>
  )

  /** A writer puts a file at a location that was never used before: its name holds a new UUID. */
  predicate UploadStep(a: World, b: World, location: Location) {
    location !in a.used
    && b == a.(objects := a.objects[location := a.now], used := a.used + {location}, uncommitted := a.uncommitted + {location})
  }

  /** A commit turns uploaded files into rows, each location into one. */
  predicate CommitStep(a: World, b: World, files: set<FileRow>) {
    && Locations(files) <= a.uncommitted
    && (forall f, g :: f in files && g in files && f.location == g.location ==> f == g)
    && b == a.(rows := a.rows + files, uncommitted := a.uncommitted - Locations(files))
  }

  /** A writer gives up: its files stay behind, to be found as orphans. */
  predicate AbandonStep(a: World, b: World, locations: set<Location>) {
    b == a.(uncommitted := a.uncommitted - locations)
  }

  /** Expiry moves file rows to the scheduled ones; each resolves to the location it had. */
  predicate ExpireStep(a: World, b: World, files: set<FileRow>) {
    files <= a.rows && b == a.(rows := a.rows - files, scheduled := a.scheduled + files)
  }

  /** Detaching a table takes its rows away altogether. */
  predicate DetachStep(a: World, b: World, files: set<FileRow>) {
    files <= a.rows && b == a.(rows := a.rows - files)
  }

  predicate BeginCleanUpStep(a: World, b: World, files: set<FileRow>) {
    files <= a.scheduled && b == a.(cleanUps := a.cleanUps + [CleanUp(files, {})])
  }

  /** One object of a clean-up is deleted. */
  predicate DeleteObjectStep(a: World, b: World, i: nat, location: Location) {
    && i < |a.cleanUps| && location in Locations(a.cleanUps[i].files)
    && b == a.(objects := a.objects - {location},
               cleanUps := a.cleanUps[i := a.cleanUps[i].(deleted := a.cleanUps[i].deleted + {location})])
  }

  /** All objects are gone: the rows follow. */
  predicate FinishCleanUpStep(a: World, b: World, i: nat) {
    && i < |a.cleanUps| && Locations(a.cleanUps[i].files) <= a.cleanUps[i].deleted
    && b == a.(scheduled := a.scheduled - a.cleanUps[i].files, cleanUps := a.cleanUps[..i] + a.cleanUps[i + 1..])
  }

  /** A clean-up stops after deleting some of its objects, or an orphan scan stops anywhere. */
  predicate StopCleanUpStep(a: World, b: World, i: nat) {
    i < |a.cleanUps| && b == a.(cleanUps := a.cleanUps[..i] + a.cleanUps[i + 1..])
  }

  predicate StopScanStep(a: World, b: World, i: nat) {
    i < |a.scans| && b == a.(scans := a.scans[..i] + a.scans[i + 1..])
  }

  predicate BeginScanStep(a: World, b: World, cutoff: Option<int>) {
    b == a.(scans := a.scans + [Scan(cutoff, ReadingScheduled, Locations(a.rows), {})])
  }

  predicate ReadScheduledStep(a: World, b: World, i: nat) {
    && i < |a.scans| && a.scans[i].phase.ReadingScheduled?
    && b == a.(scans := a.scans[i := a.scans[i].(phase := Listing, referenced := a.scans[i].referenced + Locations(a.scheduled))])
  }

  /** The listing returns one object, which is judged by what was read before. */
  predicate ListStep(a: World, b: World, i: nat, location: Location) {
    && i < |a.scans| && a.scans[i].phase.Listing? && location in a.objects
    && IsOrphan(a.scans[i].referenced, a.scans[i].cutoff)((location, a.objects[location]))
    && b == a.(scans := a.scans[i := a.scans[i].(orphans := a.scans[i].orphans + {location})])
  }

  predicate DeleteOrphanStep(a: World, b: World, i: nat, location: Location) {
    i < |a.scans| && location in a.scans[i].orphans && b == a.(objects := a.objects - {location})
  }

  predicate TickStep(a: World, b: World) { b.now >= a.now && b == a.(now := b.now) }

  /** Files being written are younger than the scan's age limit. */
  predicate Protected(a: World, cutoff: Option<int>) {
    cutoff.Some? && cutoff.value <= a.now
    && forall l :: l in a.uncommitted && l in a.objects ==> a.objects[l] >= cutoff.value
  }

  ghost predicate Step(a: World, b: World) {
    || (exists l :: UploadStep(a, b, l)) || (exists f :: CommitStep(a, b, f)) || (exists l :: AbandonStep(a, b, l))
    || (exists f :: ExpireStep(a, b, f)) || (exists f :: DetachStep(a, b, f))
    || (exists f :: BeginCleanUpStep(a, b, f)) || (exists i: nat, l :: DeleteObjectStep(a, b, i, l))
    || (exists i: nat :: FinishCleanUpStep(a, b, i)) || (exists i: nat :: StopCleanUpStep(a, b, i))
    || (exists i: nat :: StopScanStep(a, b, i)) || (exists c :: BeginScanStep(a, b, c))
    || (exists i: nat :: ReadScheduledStep(a, b, i)) || (exists i: nat, l :: ListStep(a, b, i, l))
    || (exists i: nat, l :: DeleteOrphanStep(a, b, i, l)) || TickStep(a, b)
  }

  /** Every scan that begins here has an age limit that protects the files being written. */
  ghost predicate Careful(a: World, b: World) { forall c :: BeginScanStep(a, b, c) ==> Protected(a, c) }

  ghost predicate Run(run: seq<World>) {
    && run != [] && run[0].objects == map[] && run[0].used == {} && run[0].uncommitted == {} && run[0].rows == {}
    && run[0].scheduled == {} && run[0].cleanUps == [] && run[0].scans == []
    && forall i :: 0 <= i < |run| - 1 ==> Step(run[i], run[i + 1])
  }

  ghost predicate CarefulRun(run: seq<World>) {
    Run(run) && forall i :: 0 <= i < |run| - 1 ==> Careful(run[i], run[i + 1])
  }

  // ----- the invariant -----

  /** What is scanned stays apart from what is needed: every needed file is referenced or young. */
  ghost predicate ScanSafe(s: World, scan: Scan) {
    && scan.cutoff.Some? && scan.cutoff.value <= s.now
    && (forall l :: l in Locations(s.rows) + s.uncommitted && l in s.objects ==>
          l in scan.referenced || s.objects[l] >= scan.cutoff.value)
    && (forall l :: l in scan.orphans ==> l !in Locations(s.rows) && l !in s.uncommitted && l in s.used)
  }

  ghost predicate CleanUpSafe(s: World, c: CleanUp) {
    Locations(c.files) !! Locations(s.rows) && Locations(c.files) !! s.uncommitted && Locations(c.files) <= s.used
  }

  ghost predicate Inv(s: World) {
    && Locations(s.rows) + s.uncommitted <= s.objects.Keys
    && s.objects.Keys <= s.used && Locations(s.scheduled) <= s.used
    && Locations(s.rows) !! s.uncommitted && Locations(s.scheduled) !! s.uncommitted && Locations(s.scheduled) !! Locations(s.rows)
    && (forall f, g :: f in s.rows && g in s.rows && f.location == g.location ==> f == g)
    && (forall c :: c in s.cleanUps ==> CleanUpSafe(s, c))
    && (forall x :: x in s.scans ==> ScanSafe(s, x))
  }

  /** The parts of the world that in-flight work depends on only shrink. */
  lemma OthersKeep(a: World, b: World)
    requires Inv(a) && b.now >= a.now && a.used <= b.used
    requires Locations(b.rows) + b.uncommitted <= Locations(a.rows) + a.uncommitted
    requires forall l :: l in b.objects ==> l in a.objects && b.objects[l] == a.objects[l]
    ensures forall c :: c in a.cleanUps ==> CleanUpSafe(b, c)
    ensures forall x :: x in a.scans ==> ScanSafe(b, x)
  {
    forall c | c in a.cleanUps ensures CleanUpSafe(b, c) {
      assert CleanUpSafe(a, c);
      forall l | l in Locations(c.files) ensures l !in Locations(b.rows) && l !in b.uncommitted {
        assert l !in Locations(a.rows) + a.uncommitted;
      }
    }
    forall x | x in a.scans ensures ScanSafe(b, x) {
      assert ScanSafe(a, x);
      forall l | l in Locations(b.rows) + b.uncommitted && l in b.objects ensures l in x.referenced || b.objects[l] >= x.cutoff.value {
        assert l in Locations(a.rows) + a.uncommitted;
      }
      forall l | l in x.orphans ensures l !in Locations(b.rows) && l !in b.uncommitted {
        assert l !in Locations(a.rows) + a.uncommitted;
      }
    }
  }

  lemma UploadKeeps(a: World, b: World, location: Location)
    requires Inv(a) && UploadStep(a, b, location)
    ensures Inv(b)
  {
    forall c | c in b.cleanUps ensures CleanUpSafe(b, c) {
      assert CleanUpSafe(a, c);
    }
    forall x | x in b.scans ensures ScanSafe(b, x) {
      assert ScanSafe(a, x);
    }
  }

  lemma CommitKeeps(a: World, b: World, files: set<FileRow>)
    requires Inv(a) && CommitStep(a, b, files)
    ensures Inv(b)
  {
    assert Locations(b.rows) == Locations(a.rows) + Locations(files);
    OthersKeep(a, b);
    forall f, g | f in a.rows && g in files ensures f.location != g.location {
      assert f.location in Locations(a.rows) && g.location in Locations(files);
    }
  }

  lemma AbandonKeeps(a: World, b: World, locations: set<Location>)
    requires Inv(a) && AbandonStep(a, b, locations)
    ensures Inv(b)
  {
    OthersKeep(a, b);
  }

  lemma MoveRowsKeeps(a: World, b: World, files: set<FileRow>, moved: set<FileRow>)
    requires Inv(a) && files <= a.rows && moved <= files
    requires b == a.(rows := a.rows - files, scheduled := a.scheduled + moved)
    ensures Inv(b)
  {
    OthersKeep(a, b);
    forall l | l in Locations(b.scheduled) ensures l in b.used && l !in b.uncommitted && l !in Locations(b.rows) {
      if l !in Locations(a.scheduled) {
        var f :| f in moved && f.location == l;
        assert l in Locations(a.rows);
      }
    }
  }

  lemma BeginCleanUpKeeps(a: World, b: World, files: set<FileRow>)
    requires Inv(a) && BeginCleanUpStep(a, b, files)
    ensures Inv(b)
  {
    OthersKeep(a, b);
    assert Locations(files) <= Locations(a.scheduled);
    forall c | c in b.cleanUps ensures CleanUpSafe(b, c) {
      if c !in a.cleanUps { assert c == CleanUp(files, {}); }
    }
  }

  lemma DeleteObjectKeeps(a: World, b: World, i: nat, location: Location)
    requires Inv(a) && DeleteObjectStep(a, b, i, location)
    ensures Inv(b)
  {
    OthersKeep(a, b);
    assert a.cleanUps[i] in a.cleanUps && CleanUpSafe(a, a.cleanUps[i]);
    forall c | c in b.cleanUps ensures CleanUpSafe(b, c) {
      if c !in a.cleanUps { assert c.files == a.cleanUps[i].files; }
    }
  }

  lemma EndCleanUpKeeps(a: World, b: World, i: nat, gone: set<FileRow>)
    requires Inv(a) && i < |a.cleanUps|
    requires b == a.(scheduled := a.scheduled - gone, cleanUps := a.cleanUps[..i] + a.cleanUps[i + 1..])
    ensures Inv(b)
  {
    OthersKeep(a, b);
    assert forall c :: c in b.cleanUps ==> c in a.cleanUps;
  }

  lemma ScanStepKeeps(a: World, b: World, scan: Scan)
    requires Inv(a) && (forall x :: x in b.scans ==> x in a.scans || x == scan) && b == a.(scans := b.scans) && ScanSafe(b, scan)
    ensures Inv(b)
  {
    OthersKeep(a, b);
  }

  lemma BeginScanKeeps(a: World, b: World, cutoff: Option<int>)
    requires Inv(a) && BeginScanStep(a, b, cutoff) && Protected(a, cutoff)
    ensures Inv(b)
  {
    ScanStepKeeps(a, b, Scan(cutoff, ReadingScheduled, Locations(a.rows), {}));
  }

  lemma ReadScheduledKeeps(a: World, b: World, i: nat)
    requires Inv(a) && ReadScheduledStep(a, b, i)
    ensures Inv(b)
  {
    assert a.scans[i] in a.scans && ScanSafe(a, a.scans[i]);
    ScanStepKeeps(a, b, b.scans[i]);
  }

  lemma ListKeeps(a: World, b: World, i: nat, location: Location)
    requires Inv(a) && ListStep(a, b, i, location)
    ensures Inv(b)
  {
    assert a.scans[i] in a.scans && ScanSafe(a, a.scans[i]);
    ScanStepKeeps(a, b, b.scans[i]);
  }

  lemma StopScanKeeps(a: World, b: World, i: nat)
    requires Inv(a) && StopScanStep(a, b, i)
    ensures Inv(b)
  {
    OthersKeep(a, b);
    assert forall x :: x in b.scans ==> x in a.scans;
  }

  lemma DeleteOrphanKeeps(a: World, b: World, i: nat, location: Location)
    requires Inv(a) && DeleteOrphanStep(a, b, i, location)
    ensures Inv(b)
  {
    OthersKeep(a, b);
    assert a.scans[i] in a.scans && ScanSafe(a, a.scans[i]);
  }

  lemma TickKeeps(a: World, b: World)
    requires Inv(a) && TickStep(a, b)
    ensures Inv(b)
  {
    OthersKeep(a, b);
  }

  lemma WriterStepKeeps(a: World, b: World)
    requires Inv(a)
    requires (exists l :: UploadStep(a, b, l)) || (exists f :: CommitStep(a, b, f)) || (exists l :: AbandonStep(a, b, l))
             || (exists f :: ExpireStep(a, b, f)) || (exists f :: DetachStep(a, b, f)) || TickStep(a, b)
    ensures Inv(b)
  {
    hide Inv, UploadStep, CommitStep, AbandonStep, TickStep;
    if l :| UploadStep(a, b, l) {
      UploadKeeps(a, b, l);
    } else if f :| CommitStep(a, b, f) {
      CommitKeeps(a, b, f);
    } else if l :| AbandonStep(a, b, l) {
      AbandonKeeps(a, b, l);
    } else if f :| ExpireStep(a, b, f) {
      MoveRowsKeeps(a, b, f, f);
    } else if f :| DetachStep(a, b, f) {
      assert a.scheduled + {} == a.scheduled;
      MoveRowsKeeps(a, b, f, {});
    } else {
      TickKeeps(a, b);
    }
  }

  lemma MaintenanceStepKeeps(a: World, b: World)
    requires Inv(a) && Careful(a, b)
    requires (exists f :: BeginCleanUpStep(a, b, f)) || (exists i: nat, l :: DeleteObjectStep(a, b, i, l))
             || (exists i: nat :: FinishCleanUpStep(a, b, i)) || (exists i: nat :: StopCleanUpStep(a, b, i))
             || (exists i: nat :: StopScanStep(a, b, i)) || (exists c :: BeginScanStep(a, b, c))
             || (exists i: nat :: ReadScheduledStep(a, b, i)) || (exists i: nat, l :: ListStep(a, b, i, l))
             || (exists i: nat, l :: DeleteOrphanStep(a, b, i, l))
    ensures Inv(b)
  {
    hide Inv, BeginCleanUpStep, DeleteObjectStep, StopScanStep, BeginScanStep, ReadScheduledStep, ListStep, DeleteOrphanStep, Protected;
    if f :| BeginCleanUpStep(a, b, f) {
      BeginCleanUpKeeps(a, b, f);
    } else if i: nat, l :| DeleteObjectStep(a, b, i, l) {
      DeleteObjectKeeps(a, b, i, l);
    } else if i: nat :| FinishCleanUpStep(a, b, i) {
      EndCleanUpKeeps(a, b, i, a.cleanUps[i].files);
    } else if i: nat :| StopCleanUpStep(a, b, i) {
      assert a.scheduled - {} == a.scheduled;
      EndCleanUpKeeps(a, b, i, {});
    } else if i: nat :| StopScanStep(a, b, i) {
      StopScanKeeps(a, b, i);
    } else if c :| BeginScanStep(a, b, c) {
      BeginScanKeeps(a, b, c);
    } else if i: nat :| ReadScheduledStep(a, b, i) {
      ReadScheduledKeeps(a, b, i);
    } else if i: nat, l :| ListStep(a, b, i, l) {
      ListKeeps(a, b, i, l);
    } else {
      var i: nat, l :| DeleteOrphanStep(a, b, i, l);
      DeleteOrphanKeeps(a, b, i, l);
    }
  }

  /** Every step keeps the invariant, as long as scans that begin in it are protected. */
  lemma StepKeeps(a: World, b: World)
    requires Inv(a) && Step(a, b) && Careful(a, b)
    ensures Inv(b)
  {
    hide Inv, UploadStep, CommitStep, AbandonStep, TickStep, ExpireStep, DetachStep, BeginCleanUpStep, DeleteObjectStep,
         FinishCleanUpStep, StopCleanUpStep, StopScanStep, BeginScanStep, ReadScheduledStep, ListStep, DeleteOrphanStep, Careful;
    if (exists l :: UploadStep(a, b, l)) || (exists f :: CommitStep(a, b, f)) || (exists l :: AbandonStep(a, b, l))
       || (exists f :: ExpireStep(a, b, f)) || (exists f :: DetachStep(a, b, f)) || TickStep(a, b) {
      WriterStepKeeps(a, b);
    } else {
      MaintenanceStepKeeps(a, b);
    }
  }

  lemma {:induction false} RunInv(run: seq<World>, i: nat)
    requires CarefulRun(run) && i < |run|
    ensures Inv(run[i])
  {
    hide Inv, Step, Careful;
    if i == 0 {
      EmptyInv(run[0]);
    } else {
      RunInv(run, i - 1);
      assert Step(run[i - 1], run[i - 1 + 1]) && Careful(run[i - 1], run[i - 1 + 1]);
      StepKeeps(run[i - 1], run[i]);
    }
  }

  lemma EmptyInv(s: World)
    requires s.objects == map[] && s.used == {} && s.uncommitted == {} && s.rows == {}
    requires s.scheduled == {} && s.cleanUps == [] && s.scans == []
    ensures Inv(s)
  {
  }

  /**
   * Storage safety: in every run in which orphan scans spare files young enough to be still being
   * written, the object of every file row, so of every file that a retained snapshot sees, is there.
   */
  lemma FilesStayStored(run: seq<World>, i: nat, f: FileRow)
    requires CarefulRun(run) && i < |run| && f in run[i].rows
    ensures f.location in run[i].objects
  {
    hide CarefulRun;
    RunInv(run, i);
    assert f.location in Locations(run[i].rows);
  }

  // ----- without an age limit -----

  /** `delete_all_orphaned_files` while a file is being written: the file is lost once it is committed. */
  lemma DeletingAllOrphansCanLoseFiles()
    ensures exists run: seq<World> :: Run(run) && |run| == 7 && FileRow(1, "f") in run[6].rows && "f" !in run[6].objects
  {
    var s0 := World(0, map[], {}, {}, {}, {}, [], []);
    var s1 := s0.(objects := map["f" := 0], used := {"f"}, uncommitted := {"f"});
    assert UploadStep(s0, s1, "f");
    assert Locations({}) == {};
    var s2 := s1.(scans := [Scan(None, ReadingScheduled, {}, {})]);
    assert BeginScanStep(s1, s2, None);
    var s3 := s2.(scans := [Scan(None, Listing, {}, {})]);
    var none: set<Location> := {};
    assert none + Locations(s2.scheduled) == none;
    assert s3.scans == s2.scans[0 := s2.scans[0].(phase := Listing, referenced := none + Locations(s2.scheduled))];
    assert ReadScheduledStep(s2, s3, 0);
    var s4 := s3.(scans := [Scan(None, Listing, {}, {"f"})]);
    assert ListStep(s3, s4, 0, "f");
    var s5 := s4.(rows := {FileRow(1, "f")}, uncommitted := {});
    assert Locations({FileRow(1, "f")}) == {"f"};
    assert CommitStep(s4, s5, {FileRow(1, "f")});
    var s6 := s5.(objects := map[]);
    assert DeleteOrphanStep(s5, s6, 0, "f");
    LossRun([s0, s1, s2, s3, s4, s5, s6]);
  }

  lemma LossRun(run: seq<World>)
    requires |run| == 7 && run[0] == World(0, map[], {}, {}, {}, {}, [], [])
    requires UploadStep(run[0], run[1], "f") && BeginScanStep(run[1], run[2], None) && ReadScheduledStep(run[2], run[3], 0)
    requires ListStep(run[3], run[4], 0, "f") && CommitStep(run[4], run[5], {FileRow(1, "f")})
    requires DeleteOrphanStep(run[5], run[6], 0, "f")
    ensures Run(run)
  {
    hide UploadStep, CommitStep, BeginScanStep, ReadScheduledStep, ListStep, DeleteOrphanStep;
    forall i | 0 <= i < 6 ensures Step(run[i], run[i + 1]) {
    }
  }
}
