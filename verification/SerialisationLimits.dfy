/**
 * Exactly when commits are serialised, whatever expiry deletes below open transactions: a commit
 * must take a slot that was never used, and its last conflict check must have found every record.
 */
module SerialisationLimits {
  import opened Prelude
  import opened CommitStates
  import opened Commits
  import CommitLimits

  // ----- the condition -----

  /** State `j` is the one in which client `c` made its last conflict check before state `i`. */
  ghost predicate LastCheck(run: seq<System>, j: nat, i: nat, c: nat) {
    && j < i < |run| && c < |run[j].clients| && run[j].clients[c].Busy? && run[j].clients[c].phase.Checking?
    && forall m :: j < m <= i ==> c < |run[m].clients| && run[m].clients[c].Busy? && run[m].clients[c].phase.Attempting?
  }

  /** A snapshot between the transaction's base and the head it was checked against was expired by then. */
  ghost predicate Missed(run: seq<System>, i: nat, c: nat)
    requires i < |run| && c < |run[i].clients| && run[i].clients[c].Busy?
  {
    var client := run[i].clients[c];
    exists j: nat, k :: LastCheck(run, j, i, c) && client.base.info.id < k <= client.latest.info.id && k in run[j].expired
  }

  /** The slot was never taken, and no record was missing. */
  ghost predicate Clean(run: seq<System>, i: nat, c: nat)
    requires i < |run| && c < |run[i].clients| && run[i].clients[c].Busy?
  {
    run[i].clients[c].latest.info.id + 1 !in run[i].expired && !Missed(run, i, c)
  }

  ghost predicate NoneStale(s: System) { forall x :: x in s.clients && x.Busy? ==> !Stale(x.changes) }

  ghost predicate NeverStale(run: seq<System>, i: nat) { forall j :: 0 <= j <= i < |run| ==> NoneStale(run[j]) }

  // ----- the invariant without polite expiry -----

  /** What is known of a client when snapshots after its base may be gone. */
  ghost predicate WideClient(s: System, client: Client, rules: (string, string) -> bool) {
    client.Busy? ==>
      && At(s.log, client.base) && At(s.log, client.latest) && client.base.info.id <= client.latest.info.id
      && ValidChanges(client.changes, client.base.tables)
      && client.cell < |s.cells| && KeyOf(s.cells[client.cell].snap.info) == KeyOf(client.latest.info)
      && (client.phase.Attempting? ==>
            && (forall k :: k in client.checked ==> client.base.info.id < k <= client.latest.info.id)
            && (client.checked != {} ==> Names(client.tried, client.changes))
            && forall k :: k in client.checked ==> !Conflicts(client.tried, s.log[k].made, rules))
      && (!client.phase.Attempting? ==> Names(client.tried, client.changes))
  }

  /** Every id of the log is retained, with its record, or expired. */
  ghost predicate Parted(s: System) {
    && s.made.Keys == s.snapshots.Keys
    && (forall k :: 0 <= k < |s.log| ==> (k in s.snapshots <==> k !in s.expired))
    && (forall k :: k in s.expired ==> 0 <= k < |s.log|)
  }

  ghost predicate Wide(s: System, rules: (string, string) -> bool) {
    && LogInv(s.log, rules) && DatabaseInv(s) && Parted(s)
    && (forall c :: c in s.cells ==> CellInv(s.log, c))
    && (forall c :: c in s.clients ==> WideClient(s, c, rules))
  }

  lemma WideOver(a: System, b: System, client: Client, rules: (string, string) -> bool)
    requires WideClient(a, client, rules) && a.log <= b.log
    requires |a.cells| <= |b.cells| && forall i :: 0 <= i < |a.cells| ==> b.cells[i].snap == a.cells[i].snap
    ensures WideClient(b, client, rules)
  {
    hide ValidChanges, Names, Conflicts;
  }

  /** Replacing one client keeps what is known of the others. */
  lemma WidesOver(a: System, b: System, c: nat, next: Client, rules: (string, string) -> bool)
    requires forall x :: x in a.clients ==> WideClient(a, x, rules)
    requires a.log == b.log
    requires |a.cells| <= |b.cells| && forall i :: 0 <= i < |a.cells| ==> b.cells[i].snap == a.cells[i].snap
    requires c < |a.clients| && b.clients == a.clients[c := next] && WideClient(b, next, rules)
    ensures forall x :: x in b.clients ==> WideClient(b, x, rules)
  {
    hide ValidChanges, Names, Conflicts;
    forall x | x in b.clients ensures WideClient(b, x, rules) {
      if x != next {
        assert x in a.clients;
        WideOver(a, b, x, rules);
      }
    }
  }

  /** The steps that write nothing to the database. */
  lemma QuietKeepsWide(a: System, b: System, rules: (string, string) -> bool)
    requires Wide(a, rules)
    requires b == a.(cells := b.cells, clients := b.clients)
    requires |a.cells| <= |b.cells| && forall i :: 0 <= i < |a.cells| ==> b.cells[i].snap == a.cells[i].snap
    requires forall x :: x in b.cells ==> CellInv(b.log, x)
    requires forall x :: x in b.clients ==> WideClient(b, x, rules)
    ensures Wide(b, rules)
  {
    hide LogInv, CellInv, WideClient, SameStats, Below;
  }

  lemma BeginWide(a: System, b: System, c: nat, head: Snap, cs: seq<Change>, i: nat, rules: (string, string) -> bool)
    requires Wide(a, rules) && BeginStep(a, b, c, head, cs, i)
    ensures Wide(b, rules)
  {
    hide ValidChanges, Conflicts, LogInv, SameStats, Below, CellInv, Acquire;
    LatestIsLast(a, head);
    Acquired(a.log, a.cells, b.cells, head, i);
    WidesOver(a, b, c, b.clients[c], rules);
    QuietKeepsWide(a, b, rules);
  }

  lemma ShareWide(a: System, b: System, k: nat, i: nat, rules: (string, string) -> bool)
    requires Wide(a, rules) && ShareStep(a, b, k, i)
    ensures Wide(b, rules)
  {
    hide ValidChanges, Conflicts, SameStats, Below, CellInv, Acquire, Names, Upto;
    if k > 0 { assert Serialised(a.log, k, rules); }
    Acquired(a.log, a.cells, b.cells, a.log[k].snap, i);
    forall x | x in b.clients ensures WideClient(b, x, rules) {
      WideOver(a, b, x, rules);
    }
    QuietKeepsWide(a, b, rules);
  }

  lemma LoadWide(a: System, b: System, i: nat, rules: (string, string) -> bool)
    requires Wide(a, rules) && LoadStep(a, b, i)
    ensures Wide(b, rules)
  {
    hide ValidChanges, Conflicts, LogInv, Names;
    forall x | x in b.clients ensures WideClient(b, x, rules) {
      WideOver(a, b, x, rules);
    }
    assert a.cells[i] in a.cells && CellInv(a.log, a.cells[i]);
    assert CellInv(b.log, b.cells[i]);
    forall x | x in b.cells ensures CellInv(b.log, x) {
      if x != b.cells[i] { assert x in a.cells; }
    }
    QuietKeepsWide(a, b, rules);
  }

  lemma FailWide(a: System, b: System, c: nat, error: DatabaseError, used: map<int, TableStats>, rest: string,
                 rules: (string, string) -> bool)
    requires Wide(a, rules) && FailStep(a, b, c, error, used, rest)
    ensures Wide(b, rules)
  {
    hide ValidChanges, Conflicts, LogInv, SameStats, Below, CellInv, Outcome, SummaryOf, Names;
    assert WideClient(a, a.clients[c], rules);
    TriedNames(a.clients[c], used, rest);
    WidesOver(a, b, c, b.clients[c], rules);
    QuietKeepsWide(a, b, rules);
  }

  lemma RefreshWide(a: System, b: System, c: nat, head: Snap, i: nat, rules: (string, string) -> bool)
    requires Wide(a, rules) && RefreshStep(a, b, c, head, i)
    ensures Wide(b, rules)
  {
    hide ValidChanges, Conflicts, LogInv, SameStats, Below, CellInv, Acquire, Names;
    assert WideClient(a, a.clients[c], rules);
    LatestIsLast(a, head);
    Acquired(a.log, a.cells, b.cells, head, i);
    WidesOver(a, b, c, b.clients[c], rules);
    QuietKeepsWide(a, b, rules);
  }

  lemma CheckWide(a: System, b: System, c: nat, rules: (string, string) -> bool)
    requires Wide(a, rules) && CheckStep(a, b, c, rules)
    ensures Wide(b, rules)
  {
    hide ValidChanges, Conflicts, LogInv, SameStats, Below, CellInv, Names;
    assert WideClient(a, a.clients[c], rules);
    WidesOver(a, b, c, b.clients[c], rules);
    QuietKeepsWide(a, b, rules);
  }

  lemma ExpireWide(a: System, b: System, head: Snap, ids: set<int>, dead: set<int>, rules: (string, string) -> bool)
    requires Wide(a, rules) && ExpireStep(a, b, head, ids, dead)
    ensures Wide(b, rules)
  {
    hide ValidChanges, Conflicts, LogInv, CellInv, Names;
    LatestIsLast(a, head);
    forall x | x in b.clients ensures WideClient(b, x, rules) {
      WideOver(a, b, x, rules);
    }
    assert Last(b.log).snap.tables !! dead;
  }

  // ----- commits -----

  /** The state with nothing expired, and nobody at work but client `c`. */
  function Restored(s: System, c: nat): System
    requires c < |s.clients|
  {
    s.(snapshots := map k | 0 <= k < |s.log| :: s.log[k].snap,
       made := map k | 0 <= k < |s.log| :: s.log[k].made,
       clients := seq(|s.clients|, i requires 0 <= i < |s.clients| => if i == c then s.clients[c] else Idle))
  }

  /** The last check found every record, and the attempt is at the head. */
  ghost predicate Informed(s: System, c: nat) {
    && c < |s.clients| && s.clients[c].Busy? && s.clients[c].phase.Attempting? && !Stale(s.clients[c].changes)
    && Covers(s.clients[c].checked, s.clients[c].base.info.id, s.clients[c].latest.info.id)
    && s.clients[c].latest.info.id + 1 == |s.log|
  }

  lemma RestoredInv(s: System, c: nat, rules: (string, string) -> bool)
    requires Wide(s, rules) && Informed(s, c)
    ensures Inv(Restored(s, c), rules)
  {
    hide ValidChanges, Conflicts, Names, Stale, CellInv, SameStats, Below;
    var r := Restored(s, c);
    assert WideClient(s, s.clients[c], rules);
    forall k | 0 <= k < |s.log| ensures s.log[k].snap.info.id == k {
      if k > 0 { assert Serialised(s.log, k, rules); }
    }
    assert LogInv(r.log, rules) && DatabaseInv(r);
    assert ClientInv(r, s.clients[c], rules);
    forall x | x in r.clients ensures ClientInv(r, x, rules) {
    }
  }

  /** A commit by an informed client is serialised, as the same commit without any expiry is. */
  lemma InformedSerialised(a: System, b: System, c: nat, rest: string, rules: (string, string) -> bool)
    requires Wide(a, rules) && Informed(a, c) && CommitStep(a, b, c, rest)
    ensures Serialised(b.log, |a.log|, rules)
    ensures DatabaseInv(Committed(Restored(a, c), c, rest))
  {
    hide Wide, Inv, Serialised, Outcome, NextSnap, PersistStats, SummaryOf, DatabaseInv;
    var r := Restored(a, c);
    RestoredInv(a, c, rules);
    assert r.clients[c] == a.clients[c];
    var next := Committed(r, c, rest);
    assert CommitStep(r, next, c, rest);
    CommitSerialised(r, next, c, rest, rules);
    CommitDatabase(r, next, c, rest, rules);
    assert next.log == b.log;
  }

  /** And only informed clients commit in order with every record checked. */
  lemma SerialisedInformed(a: System, b: System, c: nat, rest: string, rules: (string, string) -> bool)
    requires Wide(a, rules) && CommitStep(a, b, c, rest) && !Stale(a.clients[c].changes)
    requires Serialised(b.log, |a.log|, rules)
    ensures Informed(a, c)
  {
    hide LogInv, DatabaseInv, CellInv, Outcome, PersistStats, SummaryOf, Conflicts, Upto, TablesConflict, SameStats;
    assert WideClient(a, a.clients[c], rules);
    assert b.log[|a.log|].snap.info.id == a.clients[c].latest.info.id + 1;
    assert b.log[|a.log| - 1] == a.log[|a.log| - 1];
  }

  lemma CommitWide(a: System, b: System, c: nat, rest: string, rules: (string, string) -> bool)
    requires Wide(a, rules) && CommitStep(a, b, c, rest) && !Stale(a.clients[c].changes)
    requires Serialised(b.log, |a.log|, rules)
    ensures Wide(b, rules)
  {
    hide CellInv, Conflicts, Names, Stale, SummaryOf, Outcome, PersistStats, NextSnap, Serialised, ValidChanges, Upto, SameStats, Below;
    SerialisedInformed(a, b, c, rest, rules);
    InformedSerialised(a, b, c, rest, rules);
    CellsOver(a.log, b.log, a.cells);
    CommitLog(a.log, b.log, rules);
    CommitFacts(a, b, c, rest);
    CommitDatabaseWide(a, b, c, Committed(Restored(a, c), c, rest), rules);
    forall x | x in b.clients ensures WideClient(b, x, rules) {
      if x.Busy? {
        assert x in a.clients;
        WideOver(a, b, x, rules);
      }
    }
  }

  /** What a commit writes, and what the same commit writes in the restored state. */
  lemma CommitFacts(a: System, b: System, c: nat, rest: string)
    requires CommitStep(a, b, c, rest)
    ensures b.log != [] && b.log == a.log + [Last(b.log)] && b.expired == a.expired
    ensures
      var e, id := Last(b.log), a.clients[c].latest.info.id + 1;
      e.snap.info.id == id && b.snapshots == a.snapshots[id := e.snap] && b.made == a.made[id := e.made]
    ensures
      var r := Restored(a, c);
      && r.clients[c] == a.clients[c] && Loaded(r.clients[c], r.cells) == Loaded(a.clients[c], a.cells)
      && var next := Committed(r, c, rest); next.log == b.log && next.stats == b.stats
  {
    hide SummaryOf, Outcome, PersistStats, CreatedIds;
    assert Restored(a, c).clients[c] == a.clients[c];
  }

  lemma CommitDatabaseWide(a: System, b: System, c: nat, next: System, rules: (string, string) -> bool)
    requires Wide(a, rules) && Informed(a, c) && b.log != [] && b.log == a.log + [Last(b.log)] && b.expired == a.expired
    requires
      var e, id := Last(b.log), a.clients[c].latest.info.id + 1;
      e.snap.info.id == id && b.snapshots == a.snapshots[id := e.snap] && b.made == a.made[id := e.made]
    requires DatabaseInv(next) && next.log == b.log && next.stats == b.stats
    ensures DatabaseInv(b) && Parted(b)
  {
    hide CellInv, Names, LogInv, ValidChanges, SameStats, Below, WideClient, Covers, Stale;
    var id := a.clients[c].latest.info.id + 1;
    assert id == |a.log| && b.log[id] == Last(b.log);
    assert forall k :: 0 <= k < |a.log| ==> b.log[k] == a.log[k];
    forall k | k in b.snapshots ensures 0 <= k < |b.log| && b.snapshots[k] == b.log[k].snap && b.snapshots[k].info.id == k {
      if k != id { assert k in a.snapshots; }
    }
    forall k | k in b.made ensures 0 <= k < |b.log| && b.made[k] == b.log[k].made {
      if k != id { assert k in a.made; }
    }
    assert b.made.Keys == b.snapshots.Keys;
  }

  // ----- runs -----

  lemma {:induction false} LogIsNotEmpty(log: seq<Entry>, before: seq<Entry>, rules: (string, string) -> bool)
    requires before <= log && before != [] && LogInv(log, rules)
    ensures LogInv(before, rules)
  {
    hide Conflicts, Upto, SameStats, TablesConflict;
    forall k | 0 < k < |before| ensures Serialised(before, k, rules) {
      assert Serialised(log, k, rules);
      assert forall j :: 0 <= j <= k ==> before[j] == log[j];
    }
  }

  /** Every step that no commit made out of order keeps the wide invariant. */
  lemma StepWide(a: System, b: System, rules: (string, string) -> bool)
    requires Wide(a, rules) && Step(a, b, rules) && NoneStale(a) && LogInv(b.log, rules)
    ensures Wide(b, rules)
  {
    hide Wide, BeginStep, ShareStep, LoadStep, CommitStep, FailStep, RefreshStep, CheckStep, ExpireStep, LogInv, NoneStale;
    if c: nat, head, cs, i: nat :| BeginStep(a, b, c, head, cs, i) {
      BeginWide(a, b, c, head, cs, i, rules);
    } else if k: nat, i: nat :| ShareStep(a, b, k, i) {
      ShareWide(a, b, k, i, rules);
    } else if i: nat :| LoadStep(a, b, i) {
      LoadWide(a, b, i, rules);
    } else if c: nat, rest :| CommitStep(a, b, c, rest) {
      CommittedIsSerialised(a, b, c, rest, rules);
      CommitWide(a, b, c, rest, rules);
    } else if c: nat, error, used, rest :| FailStep(a, b, c, error, used, rest) {
      FailWide(a, b, c, error, used, rest, rules);
    } else if c: nat, head, i: nat :| RefreshStep(a, b, c, head, i) {
      RefreshWide(a, b, c, head, i, rules);
    } else if c: nat :| CheckStep(a, b, c, rules) {
      CheckWide(a, b, c, rules);
    } else {
      var head, ids, dead :| ExpireStep(a, b, head, ids, dead);
      ExpireWide(a, b, head, ids, dead, rules);
    }
  }

  lemma CommittedIsSerialised(a: System, b: System, c: nat, rest: string, rules: (string, string) -> bool)
    requires Wide(a, rules) && CommitStep(a, b, c, rest) && LogInv(b.log, rules) && NoneStale(a)
    ensures |b.log| == |a.log| + 1 && |a.log| > 0 && Serialised(b.log, |a.log|, rules)
    ensures c < |a.clients| && a.clients[c].Busy? && !Stale(a.clients[c].changes)
  {
    hide Serialised, Outcome, PersistStats, SummaryOf, NextSnap, Stale, WideClient, CellInv;
    assert a.clients[c] in a.clients;
  }

  lemma {:induction false} RunWide(run: seq<System>, rules: (string, string) -> bool, i: nat)
    requires Run(run, rules) && i < |run| && LogInv(run[i].log, rules) && NeverStale(run, i)
    ensures Wide(run[i], rules)
  {
    hide Step, Wide, LogInv, NoneStale;
    if i == 0 {
      InitialWide(run[0], rules);
    } else {
      var a, b := run[i - 1], run[i];
      assert Step(run[i - 1], run[i - 1 + 1], rules);
      CommitLimits.StepKeepsLog(a, b, rules);
      CommitLimits.NonEmptyLog(run, rules, i - 1);
      LogIsNotEmpty(b.log, a.log, rules);
      RunWide(run, rules, i - 1);
      StepWide(a, b, rules);
    }
  }

  lemma InitialWide(s: System, rules: (string, string) -> bool)
    requires Initial(s)
    ensures Wide(s, rules)
  {
  }

  // ----- what the last check found -----

  /** The client's attempt: it never checked, or it checked against all that was not expired by then. */
  ghost predicate Knows(run: seq<System>, i: nat, c: nat)
    requires i < |run|
  {
    c < |run[i].clients| && run[i].clients[c].Busy? && run[i].clients[c].phase.Attempting? ==>
      var client := run[i].clients[c];
      || (client.checked == {} && client.base == client.latest)
      || exists j: nat :: j < |run| && LastCheck(run, j, i, c) && Found(run[j], client)
  }

  /** The client has checked all ids between its base and the head it knows, but for the expired ones. */
  ghost predicate Found(s: System, client: Client)
    requires client.Busy?
  {
    forall k :: k in client.checked <==> client.base.info.id < k <= client.latest.info.id && k !in s.expired
  }

  /** How a client comes to make an attempt. */
  lemma AttemptFrom(a: System, b: System, c: nat, rules: (string, string) -> bool)
    requires Step(a, b, rules) && c < |b.clients| && b.clients[c].Busy? && b.clients[c].phase.Attempting?
    ensures c < |a.clients|
    ensures
      var before, after := a.clients[c], b.clients[c];
      || before == after
      || (after.checked == {} && after.base == after.latest)
      || (before.Busy? && before.phase.Checking?
          && after.checked == Recorded(a.made, after.base.info.id, after.latest.info.id)
          && before.base == after.base && before.latest == after.latest)
  {
    hide Acquire, Outcome, SummaryOf, ValidChanges, Conflicts, IsLatest, Loaded, Recorded, Committed, Retryable, Step;
    StepKinds(a, b, rules);
    if rest, d: nat :| CommitStep(a, b, d, rest) {
      assert b.clients == a.clients[d := Idle] by { CommitClients(a, b, d, rest); }
    }
  }

  lemma CommitClients(a: System, b: System, c: nat, rest: string)
    requires CommitStep(a, b, c, rest)
    ensures b.clients == a.clients[c := Idle]
  {
    hide Outcome, SummaryOf, NextSnap, PersistStats;
  }

  lemma StepKinds(a: System, b: System, rules: (string, string) -> bool)
    requires Step(a, b, rules)
    ensures
      || (exists c: nat, head, cs, i: nat :: BeginStep(a, b, c, head, cs, i))
      || (exists c: nat, rest :: CommitStep(a, b, c, rest))
      || (exists c: nat, error, used, rest :: FailStep(a, b, c, error, used, rest))
      || (exists c: nat, head, i: nat :: RefreshStep(a, b, c, head, i))
      || (exists c: nat :: CheckStep(a, b, c, rules))
      || b.clients == a.clients
  {
    hide BeginStep, CommitStep, FailStep, RefreshStep, CheckStep;
  }

  lemma {:induction false} RunKnows(run: seq<System>, rules: (string, string) -> bool, i: nat, c: nat)
    requires Run(run, rules) && i < |run| && LogInv(run[i].log, rules) && NeverStale(run, i)
    ensures Knows(run, i, c)
  {
    hide Step, Wide, LogInv, NoneStale, Found, LastCheck;
    if i == 0 {
      assert c < |run[0].clients| ==> run[0].clients[c] in run[0].clients;
    } else if c < |run[i].clients| && run[i].clients[c].Busy? && run[i].clients[c].phase.Attempting? {
      var p: nat := i - 1;
      var a, b := run[p], run[i];
      assert Step(run[p], run[p + 1], rules);
      CommitLimits.StepKeepsLog(a, b, rules);
      CommitLimits.NonEmptyLog(run, rules, p);
      LogIsNotEmpty(b.log, a.log, rules);
      AttemptFrom(a, b, c, rules);
      if a.clients[c] == b.clients[c] {
        RunKnows(run, rules, p, c);
        KnowsOn(run, p, i, c);
      } else if !(b.clients[c].checked == {} && b.clients[c].base == b.clients[c].latest) {
        RunWide(run, rules, p);
        CheckFinds(a, b, c, rules);
        CheckedAt(run, p, i, c);
      }
    }
  }

  lemma KnowsOn(run: seq<System>, p: nat, i: nat, c: nat)
    requires i == p + 1 < |run| && Knows(run, p, c) && c < |run[p].clients| && c < |run[i].clients|
    requires run[p].clients[c] == run[i].clients[c]
    ensures Knows(run, i, c)
  {
    hide Found;
    var client := run[i].clients[c];
    if client.Busy? && client.phase.Attempting? && !(client.checked == {} && client.base == client.latest) {
      var j: nat :| j < |run| && LastCheck(run, j, p, c) && Found(run[j], client);
      assert LastCheck(run, j, i, c);
    }
  }

  lemma CheckFinds(a: System, b: System, c: nat, rules: (string, string) -> bool)
    requires Wide(a, rules) && c < |a.clients| && c < |b.clients| && a.clients[c].Busy? && b.clients[c].Busy?
    requires b.clients[c].checked == Recorded(a.made, b.clients[c].base.info.id, b.clients[c].latest.info.id)
    requires a.clients[c].base == b.clients[c].base && a.clients[c].latest == b.clients[c].latest
    ensures Found(a, b.clients[c])
  {
    hide LogInv, DatabaseInv, CellInv, ValidChanges, Names, Conflicts;
    assert WideClient(a, a.clients[c], rules);
  }

  lemma CheckedAt(run: seq<System>, p: nat, i: nat, c: nat)
    requires i == p + 1 < |run| && c < |run[p].clients| && c < |run[i].clients|
    requires run[p].clients[c].Busy? && run[p].clients[c].phase.Checking?
    requires run[i].clients[c].Busy? && run[i].clients[c].phase.Attempting? && Found(run[p], run[i].clients[c])
    ensures Knows(run, i, c)
  {
    hide Found;
    assert LastCheck(run, p, i, c);
  }

  /** The last check covered every id exactly if none of them was expired by then. */
  lemma CoversIff(run: seq<System>, i: nat, c: nat, rules: (string, string) -> bool)
    requires i < |run| && Knows(run, i, c) && Wide(run[i], rules)
    requires c < |run[i].clients| && run[i].clients[c].Busy? && run[i].clients[c].phase.Attempting?
    ensures
      var client := run[i].clients[c];
      Covers(client.checked, client.base.info.id, client.latest.info.id) <==> !Missed(run, i, c)
  {
    hide Wide, LastCheck;
    var client := run[i].clients[c];
    if j: nat :| j < |run| && LastCheck(run, j, i, c) && Found(run[j], client) {
      forall m: nat | LastCheck(run, m, i, c) ensures m == j {
        OneLastCheck(run, j, m, i, c);
      }
    }
  }

  lemma OneLastCheck(run: seq<System>, j: nat, m: nat, i: nat, c: nat)
    requires LastCheck(run, j, i, c) && LastCheck(run, m, i, c)
    ensures j == m
  {
  }

  // ----- the theorems -----

  /**
   * Exactly when the next commit is serialised, given that the earlier ones are: the slot it takes
   * was never used, and no snapshot between its base and its head was expired before its last check.
   */
  lemma SerialisedIff(run: seq<System>, rules: (string, string) -> bool, i: nat, c: nat, rest: string)
    requires Run(run, rules) && i + 1 < |run| && LogInv(run[i].log, rules) && NeverStale(run, i)
    requires CommitStep(run[i], run[i + 1], c, rest)
    ensures |run[i + 1].log| == |run[i].log| + 1
    ensures Serialised(run[i + 1].log, |run[i].log|, rules) <==> Clean(run, i, c)
  {
    hide Serialised, LogInv, Missed, Outcome, PersistStats, SummaryOf, NextSnap, Stale, Knows, ValidChanges, Covers, DatabaseInv, CellInv;
    var a, b := run[i], run[i + 1];
    RunWide(run, rules, i);
    RunKnows(run, rules, i, c);
    CoversIff(run, i, c, rules);
    assert NoneStale(run[i]) && a.clients[c] in a.clients;
    assert WideClient(a, a.clients[c], rules);
    if Serialised(b.log, |a.log|, rules) {
      SerialisedInformed(a, b, c, rest, rules);
    }
    if Clean(run, i, c) {
      assert Informed(a, c);
      InformedSerialised(a, b, c, rest, rules);
    }
  }

  ghost predicate CommitsAt(run: seq<System>, i: nat, c: nat, rest: string) {
    i + 1 < |run| && CommitStep(run[i], run[i + 1], c, rest)
  }

  /** Every commit of the run before state `n` met the condition. */
  ghost predicate AllClean(run: seq<System>, n: nat) {
    forall i: nat, c: nat, rest :: i < n && CommitsAt(run, i, c, rest) ==> Clean(run, i, c)
  }

  /** Exactly which runs are serialised throughout: those in which every commit was clean. */
  lemma {:induction false} RunSerialisedIff(run: seq<System>, rules: (string, string) -> bool, n: nat)
    requires Run(run, rules) && n < |run| && NeverStale(run, n)
    ensures LogInv(run[n].log, rules) <==> AllClean(run, n)
  {
    hide Step, LogInv, NoneStale, Clean, Committed;
    if n == 0 {
      FirstLog(run[0], rules);
    } else {
      var p: nat := n - 1;
      var a, b := run[p], run[n];
      assert Step(run[p], run[p + 1], rules);
      CommitLimits.StepKeepsLog(a, b, rules);
      CommitLimits.NonEmptyLog(run, rules, p);
      RunSerialisedIff(run, rules, p);
      if LogInv(b.log, rules) { LogIsNotEmpty(b.log, a.log, rules); }
      if LogInv(a.log, rules) {
        forall c: nat, rest | CommitsAt(run, p, c, rest) ensures LogInv(b.log, rules) <==> Clean(run, p, c) {
          SerialisedIff(run, rules, p, c, rest);
          LogOfOneMore(a.log, b.log, rules);
        }
        if forall c: nat, rest :: !CommitsAt(run, p, c, rest) {
          NoCommitNoEntry(a, b, rules, run, p);
        }
      }
      OneMoreStep(run, p, n);
    }
  }

  lemma OneMoreStep(run: seq<System>, p: nat, n: nat)
    requires n == p + 1
    ensures AllClean(run, n) <==> AllClean(run, p) && forall c: nat, rest :: CommitsAt(run, p, c, rest) ==> Clean(run, p, c)
  {
    hide Clean, CommitStep;
  }

  lemma FirstLog(s: System, rules: (string, string) -> bool)
    requires Initial(s)
    ensures LogInv(s.log, rules)
  {
  }

  lemma LogOfOneMore(before: seq<Entry>, after: seq<Entry>, rules: (string, string) -> bool)
    requires LogInv(before, rules) && |after| == |before| + 1 && before <= after
    ensures LogInv(after, rules) <==> Serialised(after, |before|, rules)
  {
    hide Serialised;
    if Serialised(after, |before|, rules) { CommitLog(before, after, rules); }
  }

  lemma NoCommitNoEntry(a: System, b: System, rules: (string, string) -> bool, run: seq<System>, p: nat)
    requires Step(a, b, rules) && p + 1 < |run| && run[p] == a && run[p + 1] == b
    requires forall c: nat, rest :: !CommitsAt(run, p, c, rest)
    ensures b.log == a.log
  {
    hide Acquire, Outcome, SummaryOf, ValidChanges, Conflicts, CommitStep, IsLatest;
    forall c: nat, rest ensures !CommitStep(a, b, c, rest) {
      assert !CommitsAt(run, p, c, rest);
    }
  }

  // ----- a run with a missing record -----

  const FOURTH := Snap(Catalog.SnapshotRow(3, 3, 4, 0), {1, 2, 3})

  /** The second transaction was never checked against snapshot 1, though every slot is its own. */
  ghost predicate Unchecked(s: System, rules: (string, string) -> bool) {
    && |s.log| == 4 && CommitLimits.InOrder(s.log) && s.expired == {1}
    && s.log[3].base == 0 && s.log[3].checked == {2} && !Serialised(s.log, 3, rules)
  }

  /** The first client after its attempt failed. */
  function Waiting(mine: string): Client {
    Busy(CommitLimits.FIRST, CommitLimits.NEW_TABLE, CommitLimits.FIRST, 0, 0, Failed, {}, Summary({}, {}, {}, mine))
  }

  /** Client 0 fails at snapshot 1; snapshot 2 is committed and snapshot 1 expired. */
  lemma FailsThenExpires(s4: System, mine: string, theirs: string) returns (s5: System, s6: System, s7: System)
    requires s4.clients == [CommitLimits.Begun(CommitLimits.FIRST, CommitLimits.NEW_TABLE, 0),
                            CommitLimits.Begun(CommitLimits.SECOND, CommitLimits.NEW_TABLE, 2)] && |s4.cells| == 3
    requires s4.snapshots == map[0 := CommitLimits.FIRST, 1 := CommitLimits.SECOND] && s4.stats == map[] && s4.expired == {}
    requires s4.made == map[0 := NOTHING, 1 := NOTHING] && |s4.log| == 2
    requires s4.log[0].snap == CommitLimits.FIRST && s4.log[1].snap == CommitLimits.SECOND
    ensures FailStep(s4, s5, 0, UniqueViolation, map[], mine) && CommitStep(s5, s6, 1, theirs)
    ensures ExpireStep(s6, s7, CommitLimits.THIRD, {1}, {})
    ensures s7.clients == [Waiting(mine), Idle]
    ensures s7.snapshots == map[0 := CommitLimits.FIRST, 2 := CommitLimits.THIRD] && s7.expired == {1}
    ensures s7.made == map[0 := NOTHING, 2 := Summary({}, {}, {}, theirs)] && s7.stats == map[] && |s7.cells| == 3
    ensures |s7.log| == 3 && s7.log[..2] == s4.log && s7.log[2].snap == CommitLimits.THIRD
  {
    hide Outcome, NextSnap, SummaryOf, CommitStep;
    var client := s4.clients[0];
    CommitLimits.NewTableSummary(Outcome(client, map[]), mine);
    s5 := s4.(clients := s4.clients[0 := client.(phase := Failed, tried := Summary({}, {}, {}, mine))]);
    s6 := CommitLimits.CommitNewTable(s5, 1, theirs);
    assert {1} + {2} == {1, 2};
    assert Last(s6.log).snap == CommitLimits.THIRD && s6.log[2] == Last(s6.log);
    s7 := s6.(snapshots := s6.snapshots - {1}, made := s6.made - {1}, stats := s6.stats - {},
              expired := s6.expired + ({1} * s6.snapshots.Keys));
    assert s6.snapshots[2] == CommitLimits.THIRD && s7.stats == map[];
  }

  /** It refreshes to snapshot 2, finds one record, sees no conflict, and commits snapshot 3. */
  lemma ChecksTooLittle(s7: System, rules: (string, string) -> bool, mine: string, theirs: string)
    returns (s8: System, s9: System, s10: System)
    requires s7.clients == [Waiting(mine), Idle]
    requires s7.snapshots == map[0 := CommitLimits.FIRST, 2 := CommitLimits.THIRD] && s7.expired == {1}
    requires s7.made == map[0 := NOTHING, 2 := Summary({}, {}, {}, theirs)] && s7.stats == map[] && |s7.cells| == 3
    requires |s7.log| == 3 && s7.log[0].snap == CommitLimits.FIRST && s7.log[1].snap == CommitLimits.SECOND
    requires s7.log[2].snap == CommitLimits.THIRD && !rules(mine, theirs)
    ensures RefreshStep(s7, s8, 0, CommitLimits.THIRD, 3) && CheckStep(s8, s9, 0, rules) && CommitStep(s9, s10, 0, "")
    ensures Unchecked(s10, rules)
  {
    hide Outcome, NextSnap, SummaryOf, CommitStep, Conflicts;
    var failed := s7.clients[0];
    s8 := s7.(cells := s7.cells + [Cell(CommitLimits.THIRD, None, 0)],
              clients := s7.clients[0 := failed.(latest := CommitLimits.THIRD, cell := 3, phase := Checking)]);
    var client := s8.clients[0];
    assert Recorded(s8.made, 0, 2) == {2};
    NoConflict(mine, theirs, rules);
    s9 := s8.(clients := s8.clients[0 := client.(phase := Attempting, attempt := 1, checked := {2})]);
    s10 := CommitLimits.CommitNewTable(s9, 0, "");
    assert {1, 2} + {3} == {1, 2, 3};
    assert Last(s10.log).snap == FOURTH && s10.log[3] == Last(s10.log);
    CommitLimits.CommitRecords(s9, s10, 0);
    assert s10.log[0] == s7.log[0] && s10.log[1] == s7.log[1] && s10.log[2] == s7.log[2];
    NotCovered(s10, rules);
  }

  lemma NoConflict(mine: string, theirs: string, rules: (string, string) -> bool)
    requires !rules(mine, theirs)
    ensures !Conflicts(Summary({}, {}, {}, mine), Summary({}, {}, {}, theirs), rules)
  {
  }

  lemma NotCovered(s: System, rules: (string, string) -> bool)
    requires |s.log| == 4 && s.log[3].base == 0 && s.log[3].checked == {2}
    ensures !Serialised(s.log, 3, rules)
  {
    assert 1 !in s.log[3].checked;
  }

  /**
   * Expiry also deletes the record of snapshot 1 while a transaction that began at snapshot 0 is
   * being retried. The transaction checks against snapshot 2 alone and commits snapshot 3: all
   * slots were free and in order, but its changes were never compared with those of snapshot 1.
   */
  lemma ExpiryCanHideChanges(rules: (string, string) -> bool, mine: string, theirs: string)
    requires !rules(mine, theirs)
    ensures exists run: seq<System> :: Run(run, rules) && |run| == 11 && Unchecked(run[10], rules)
  {
    hide BeginStep, CommitStep, ExpireStep, FailStep, RefreshStep, CheckStep, Run, Step, Unchecked;
    var s0, s1, s2, s3, s4 := CommitLimits.FirstCommit();
    var s5, s6, s7 := FailsThenExpires(s4, mine, theirs);
    assert s7.log[0] == s7.log[..2][0] && s7.log[1] == s7.log[..2][1];
    var s8, s9, s10 := ChecksTooLittle(s7, rules, mine, theirs);
    HidingRun([s0, s1, s2, s3, s4, s5, s6, s7, s8, s9, s10], mine, theirs, rules);
  }

  lemma HidingRun(run: seq<System>, mine: string, theirs: string, rules: (string, string) -> bool)
    requires |run| == 11 && run[0] == CommitLimits.TwoClients()
    requires BeginStep(run[0], run[1], 0, CommitLimits.FIRST, CommitLimits.NEW_TABLE, 0)
    requires BeginStep(run[1], run[2], 1, CommitLimits.FIRST, CommitLimits.NEW_TABLE, 1) && CommitStep(run[2], run[3], 1, "")
    requires BeginStep(run[3], run[4], 1, CommitLimits.SECOND, CommitLimits.NEW_TABLE, 2)
    requires FailStep(run[4], run[5], 0, UniqueViolation, map[], mine) && CommitStep(run[5], run[6], 1, theirs)
    requires ExpireStep(run[6], run[7], CommitLimits.THIRD, {1}, {}) && RefreshStep(run[7], run[8], 0, CommitLimits.THIRD, 3)
    requires CheckStep(run[8], run[9], 0, rules) && CommitStep(run[9], run[10], 0, "")
    ensures Run(run, rules)
  {
    hide BeginStep, ShareStep, CommitStep, ExpireStep, LoadStep, FailStep, RefreshStep, CheckStep;
    assert Initial(run[0]);
    forall i | 0 <= i < 10 ensures Step(run[i], run[i + 1], rules) {
      if i == 0 {
      } else if i == 1 {
      } else if i == 3 {
      } else if i == 7 {
      }
    }
  }
}
