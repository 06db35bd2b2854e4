/** Exactly which orphan scans can lose a file: those whose age limit does not protect what is being written. */
module ScanLimits {
  import opened Prelude
  import opened Storage

  /** A committed file whose object is gone. */
  ghost predicate LosesFile(s: World) { exists f :: f in s.rows && f.location !in s.objects }

  /** What may happen once a scan with the given limit begins in `a`; later scans are protected. */
  ghost predicate Continues(a: World, cutoff: Option<int>, more: seq<World>) {
    && more != [] && BeginScanStep(a, more[0], cutoff)
    && forall i :: 0 <= i < |more| - 1 ==> Step(more[i], more[i + 1]) && Careful(more[i], more[i + 1])
  }

  lemma {:induction false} ContinuesInv(a: World, cutoff: Option<int>, more: seq<World>, i: nat)
    requires Inv(a) && Continues(a, cutoff, more) && Protected(a, cutoff) && i < |more|
    ensures Inv(more[i])
  {
    hide Inv, Step, Careful, BeginScanStep, Protected;
    if i == 0 {
      BeginScanKeeps(a, more[0], cutoff);
    } else {
      ContinuesInv(a, cutoff, more, i - 1);
      assert Step(more[i - 1], more[i - 1 + 1]) && Careful(more[i - 1], more[i - 1 + 1]);
      StepKeeps(more[i - 1], more[i]);
    }
  }

  /** Without a new scan there is nothing to protect. */
  lemma NoScanBegins(a: World, b: World)
    requires |b.scans| == |a.scans|
    ensures Careful(a, b)
  {
  }

  /** The scan at `n` may take the object at `l` for an orphan, though its writer is still at work. */
  ghost predicate MayTake(s: World, n: nat, l: Location) {
    && n < |s.scans| && s.scans[n].phase.ReadingScheduled?
    && l in s.uncommitted && l in s.objects && l !in s.scans[n].referenced + Locations(s.scheduled)
    && (s.scans[n].cutoff.Some? ==> s.objects[l] < s.scans[n].cutoff.value)
  }

  /** The scan reads on and lists the object; then the file is committed, and then the object is deleted. */
  lemma TakenAndCommitted(s: World, n: nat, l: Location) returns (s1: World, s2: World, s3: World, s4: World)
    requires MayTake(s, n, l)
    ensures Step(s, s1) && Step(s1, s2) && Step(s2, s3) && Step(s3, s4)
    ensures Careful(s, s1) && Careful(s1, s2) && Careful(s2, s3) && Careful(s3, s4)
    ensures LosesFile(s4)
  {
    hide Step, Careful;
    var scan := s.scans[n];
    s1 := s.(scans := s.scans[n := scan.(phase := Listing, referenced := scan.referenced + Locations(s.scheduled))]);
    assert ReadScheduledStep(s, s1, n);
    s2 := s1.(scans := s1.scans[n := s1.scans[n].(orphans := s1.scans[n].orphans + {l})]);
    assert ListStep(s1, s2, n, l);
    var file := FileRow(0, l);
    assert Locations({file}) == {l};
    s3 := s2.(rows := s2.rows + {file}, uncommitted := s2.uncommitted - Locations({file}));
    assert CommitStep(s2, s3, {file});
    s4 := s3.(objects := s3.objects - {l});
    assert DeleteOrphanStep(s3, s4, n, l);
    AreSteps(s, s1, s2, s3, s4, n, l, {file});
    NoScanBegins(s, s1);
    NoScanBegins(s1, s2);
    NoScanBegins(s2, s3);
    NoScanBegins(s3, s4);
    assert file in s4.rows;
  }

  lemma AreSteps(s: World, s1: World, s2: World, s3: World, s4: World, n: nat, l: Location, files: set<FileRow>)
    requires ReadScheduledStep(s, s1, n) && ListStep(s1, s2, n, l) && CommitStep(s2, s3, files) && DeleteOrphanStep(s3, s4, n, l)
    ensures Step(s, s1) && Step(s1, s2) && Step(s2, s3) && Step(s3, s4)
  {
    hide ReadScheduledStep, ListStep, CommitStep, DeleteOrphanStep;
  }

  lemma {:induction false} LongerThanAll(used: set<Location>) returns (n: nat)
    ensures forall l :: l in used ==> |l| < n
  {
    if used == {} {
      n := 0;
    } else {
      var l :| l in used;
      var m := LongerThanAll(used - {l});
      n := if |l| < m then m else |l| + 1;
    }
  }

  /** An unprotected scan has a continuation in which a file is committed and lost. */
  lemma UnprotectedCanLose(a: World, cutoff: Option<int>)
    requires Inv(a) && !Protected(a, cutoff)
    ensures exists more :: Continues(a, cutoff, more) && LosesFile(more[|more| - 1])
  {
    hide Step, Careful, LosesFile;
    var n := |a.scans|;
    var begun := a.(scans := a.scans + [Scan(cutoff, ReadingScheduled, Locations(a.rows), {})]);
    assert BeginScanStep(a, begun, cutoff);
    if l :| l in a.uncommitted && l in a.objects && (cutoff.Some? ==> a.objects[l] < cutoff.value) {
      assert begun.scans[n].cutoff == cutoff && MayTake(begun, n, l);
      var s1, s2, s3, s4 := TakenAndCommitted(begun, n, l);
      var more := [begun, s1, s2, s3, s4];
      assert Continues(a, cutoff, more);
    } else {
      var m := LongerThanAll(a.used);
      var l := seq(m, _ => 'x');
      var written := begun.(objects := begun.objects[l := begun.now], used := begun.used + {l}, uncommitted := begun.uncommitted + {l});
      assert UploadStep(begun, written, l);
      Uploaded(begun, written, l);
      NoScanBegins(begun, written);
      assert written.scans[n].cutoff == cutoff && MayTake(written, n, l);
      var s1, s2, s3, s4 := TakenAndCommitted(written, n, l);
      var more := [begun, written, s1, s2, s3, s4];
      assert Continues(a, cutoff, more);
    }
  }

  lemma Uploaded(a: World, b: World, l: Location)
    requires UploadStep(a, b, l)
    ensures Step(a, b)
  {
  }

  /**
   * In every reachable state, a scan that begins there can lose a committed file exactly if its age
   * limit is missing, lies in the future, or is later than an upload that is not committed yet.
   */
  lemma ScanLosesIff(run: seq<World>, i: nat, cutoff: Option<int>)
    requires CarefulRun(run) && i < |run|
    ensures (exists more :: Continues(run[i], cutoff, more) && LosesFile(more[|more| - 1])) <==> !Protected(run[i], cutoff)
  {
    hide CarefulRun, Continues, Protected;
    RunInv(run, i);
    var a := run[i];
    if Protected(a, cutoff) {
      forall more: seq<World> | Continues(a, cutoff, more) && more != [] ensures !LosesFile(more[|more| - 1]) {
        var last := more[|more| - 1];
        ContinuesInv(a, cutoff, more, |more| - 1);
        forall f | f in last.rows ensures f.location in last.objects {
          assert f.location in Locations(last.rows);
        }
      }
      NonEmpty(a, cutoff);
    } else {
      UnprotectedCanLose(a, cutoff);
    }
  }

  lemma NonEmpty(a: World, cutoff: Option<int>)
    ensures forall more :: Continues(a, cutoff, more) ==> more != []
  {
  }
}
