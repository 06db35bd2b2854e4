/** Files scheduled for deletion: what spares them until a clean-up takes them. */
module ScheduledFiles {
  import opened Prelude
  import opened Storage

  // ----- orphan scans spare scheduled files -----

  /** A scan that has read the scheduled rows refers to every scheduled file or finds it young. */
  ghost predicate ScanSparesScheduled(s: World, scan: Scan) {
    && (forall l :: l in scan.orphans ==> l !in Locations(s.scheduled))
    && (scan.phase.Listing? ==>
          && scan.cutoff.Some?
          && forall l :: l in Locations(s.scheduled) && l in s.objects ==> l in scan.referenced || s.objects[l] >= scan.cutoff.value)
  }

  ghost predicate ScheduledInv(s: World) { forall x :: x in s.scans ==> ScanSparesScheduled(s, x) }

  /** Nothing new is scheduled, and the objects of scheduled files only disappear. */
  lemma FewerScheduled(a: World, b: World)
    requires ScheduledInv(a) && b.scheduled <= a.scheduled
    requires forall l :: l in Locations(b.scheduled) && l in b.objects ==> l in a.objects && b.objects[l] == a.objects[l]
    ensures forall x :: x in a.scans ==> ScanSparesScheduled(b, x)
  {
    assert Locations(b.scheduled) <= Locations(a.scheduled);
    forall x | x in a.scans ensures ScanSparesScheduled(b, x) {
      assert ScanSparesScheduled(a, x);
    }
  }

  lemma ExpireSpares(a: World, b: World, files: set<FileRow>)
    requires Inv(a) && ScheduledInv(a) && Storage.ExpireStep(a, b, files)
    ensures ScheduledInv(b)
  {
    forall x | x in b.scans ensures ScanSparesScheduled(b, x) {
      assert ScanSparesScheduled(a, x) && ScanSafe(a, x);
      forall l | l in Locations(b.scheduled) && l !in Locations(a.scheduled) ensures l in Locations(a.rows) {
        var f :| f in files && f.location == l;
      }
    }
  }

  lemma ScanStepSpares(a: World, b: World, i: nat)
    requires Inv(a) && ScheduledInv(a)
    requires ReadScheduledStep(a, b, i) || exists l :: ListStep(a, b, i, l)
    ensures ScheduledInv(b)
  {
    assert a.scans[i] in a.scans && ScanSparesScheduled(a, a.scans[i]) && ScanSafe(a, a.scans[i]);
    FewerScheduled(a, b);
    assert ScanSparesScheduled(b, b.scans[i]);
    assert forall x :: x in b.scans ==> x in a.scans || x == b.scans[i];
  }

  lemma BeginScanSpares(a: World, b: World, cutoff: Option<int>)
    requires ScheduledInv(a) && BeginScanStep(a, b, cutoff)
    ensures ScheduledInv(b)
  {
    FewerScheduled(a, b);
    forall x | x in b.scans ensures ScanSparesScheduled(b, x) {
      if x !in a.scans {
        assert x.orphans == {} && x.phase == ReadingScheduled;
      }
    }
  }

  lemma UploadSpares(a: World, b: World, location: Location)
    requires Inv(a) && ScheduledInv(a) && UploadStep(a, b, location)
    ensures ScheduledInv(b)
  {
    FewerScheduled(a, b);
  }

  /** The other steps start no scan and schedule nothing. */
  lemma OtherStepSpares(a: World, b: World)
    requires ScheduledInv(a) && b.scheduled <= a.scheduled && (forall x :: x in b.scans ==> x in a.scans)
    requires forall l :: l in b.objects ==> l in a.objects && b.objects[l] == a.objects[l]
    ensures ScheduledInv(b)
  {
    FewerScheduled(a, b);
  }

  lemma StepSpares(a: World, b: World)
    requires Inv(a) && ScheduledInv(a) && Step(a, b)
    ensures ScheduledInv(b)
  {
    hide Inv, ScheduledInv, Locations;
    if l :| UploadStep(a, b, l) {
      UploadSpares(a, b, l);
    } else if f :| Storage.ExpireStep(a, b, f) {
      ExpireSpares(a, b, f);
    } else if c :| BeginScanStep(a, b, c) {
      BeginScanSpares(a, b, c);
    } else if i: nat :| ReadScheduledStep(a, b, i) {
      ScanStepSpares(a, b, i);
    } else if i: nat, l :| ListStep(a, b, i, l) {
      ScanStepSpares(a, b, i);
    } else {
      OtherStepSpares(a, b);
    }
  }

  // ----- what takes a scheduled file -----

  /** A clean-up that has begun is to delete the object. */
  predicate BeingCleaned(s: World, location: Location) {
    exists c :: c in s.cleanUps && location in Locations(c.files)
  }

  lemma ScheduledStays(a: World, b: World, f: FileRow)
    requires ScheduledInv(a) && Step(a, b)
    requires f in a.scheduled && f.location in a.objects && !BeingCleaned(a, f.location)
    ensures f in b.scheduled && f.location in b.objects
  {
    hide UploadStep, CommitStep, AbandonStep, StopScanStep, BeginScanStep, ReadScheduledStep, ListStep;
    assert f.location in Locations(a.scheduled);
    if l :| UploadStep(a, b, l) {
      UploadGrows(a, b, l);
    } else if i: nat, l :| DeleteObjectStep(a, b, i, l) {
      assert a.cleanUps[i] in a.cleanUps;
    } else if i: nat :| FinishCleanUpStep(a, b, i) {
      NotTaken(a, a.cleanUps[i], f);
    } else if i: nat, l :| DeleteOrphanStep(a, b, i, l) {
      assert a.scans[i] in a.scans && ScanSparesScheduled(a, a.scans[i]);
    } else {
      OthersGrow(a, b);
    }
  }

  lemma NotTaken(s: World, c: CleanUp, f: FileRow)
    requires c in s.cleanUps && !BeingCleaned(s, f.location)
    ensures f !in c.files
  {
    assert forall g :: g in c.files ==> g.location in Locations(c.files);
  }

  lemma UploadGrows(a: World, b: World, location: Location)
    requires UploadStep(a, b, location)
    ensures a.objects.Keys <= b.objects.Keys && b.scheduled == a.scheduled
  {
  }

  lemma OthersGrow(a: World, b: World)
    requires Step(a, b) && !(exists l :: UploadStep(a, b, l))
    requires !(exists i: nat, l :: DeleteObjectStep(a, b, i, l)) && !(exists i: nat :: FinishCleanUpStep(a, b, i))
    requires !(exists i: nat, l :: DeleteOrphanStep(a, b, i, l))
    ensures b.objects == a.objects && a.scheduled <= b.scheduled
  {
  }

  lemma {:induction false} RunSpares(run: seq<World>, i: nat)
    requires CarefulRun(run) && i < |run|
    ensures ScheduledInv(run[i])
  {
    hide Inv, Step, Careful;
    if i > 0 {
      RunInv(run, i - 1);
      RunSpares(run, i - 1);
      assert Step(run[i - 1], run[i - 1 + 1]);
      StepSpares(run[i - 1], run[i]);
    }
  }

  /**
   * In every run with protected scans a scheduled file keeps its object and its row for as long as no
   * clean-up takes it: no orphan scan deletes it, whenever the scan began, and no writer and no other
   * clean-up does.
   */
  lemma {:induction false} ScheduledFileStays(run: seq<World>, i: nat, j: nat, f: FileRow)
    requires CarefulRun(run) && i <= j < |run|
    requires f in run[i].scheduled && f.location in run[i].objects
    requires forall k :: i <= k < j ==> !BeingCleaned(run[k], f.location)
    ensures f in run[j].scheduled && f.location in run[j].objects
    decreases j
  {
    hide Inv, Step, Careful, BeingCleaned, ScheduledInv;
    if i < j {
      ScheduledFileStays(run, i, j - 1, f);
      RunSpares(run, j - 1);
      assert Step(run[j - 1], run[j - 1 + 1]);
      ScheduledStays(run[j - 1], run[j], f);
    }
  }
}
