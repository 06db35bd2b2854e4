/**
 * What a commit writes, said of its change set: the snapshot row, the recorded changes and the tables
 * at the new head; and what no concurrent commit can have done to the tables it is about.
 */
module CommitContents {
  import opened Prelude
  import opened CommitStates
  import opened Commits
  import opened RowAccounting

  // ----- the snapshot row -----

  /**
   * A commit takes the next snapshot id; a new schema version exactly if it does more than write to
   * tables; catalog ids for its objects and new tables; and file ids for its files, or one id given
   * up if it writes inlined rows only.
   */
  lemma SnapshotRowOf(a: System, b: System, c: nat, rest: string)
    requires CommitStep(a, b, c, rest)
    ensures
      var client, info := a.clients[c], a.clients[c].latest.info;
      var cs := client.changes;
      && |b.log| == |a.log| + 1 && a.log <= b.log
      && var row := Last(b.log).snap.info;
         && b.snapshots == a.snapshots[row.id := Last(b.log).snap] && b.made == a.made[row.id := Last(b.log).made]
         && row.id == info.id + 1
         && row.schemaVersion == info.schemaVersion
              + (if exists x :: x in cs && (x.CreateTable? || x.AlterTable? || x.DropTable? || x.OtherObject?) then 1 else 0)
         && row.nextCatalogId == info.nextCatalogId + CatalogIdsListed(cs) + |NewTables(cs)|
         && row.nextFileId == info.nextFileId + FilesListed(cs)
              + (if (exists x :: x in cs && x.WriteInlineData?) && !(exists x :: x in cs && x.WriteDataFiles?) then 1 else 0)
  {
    hide Attempt, PersistStats, SummaryOf, CreatedIds, FilesListed, CatalogIdsListed, NewTables, Wrote;
    var client := a.clients[c];
    var used := Loaded(client, a.cells).value;
    AttemptTakes(Start(client.latest.info.nextCatalogId, client.latest.info.nextFileId, used), client.changes);
    SchemaChange(client.changes);
  }

  lemma SchemaChange(cs: seq<Change>)
    ensures ChangesSchema(cs) <==> exists x :: x in cs && (x.CreateTable? || x.AlterTable? || x.DropTable? || x.OtherObject?)
  {
    if x :| x in cs && (x.CreateTable? || x.AlterTable? || x.DropTable? || x.OtherObject?) {
      assert !x.WriteDataFiles? && !x.WriteInlineData?;
    }
    if x :| x in cs && !x.WriteDataFiles? && !x.WriteInlineData? {
      assert x.CreateTable? || x.AlterTable? || x.DropTable? || x.OtherObject?;
    }
  }

  // ----- the recorded changes and the tables -----

  /** Of the tables that were there before, exactly those that the change set names are recorded. */
  lemma RecordedChanges(a: System, b: System, c: nat, rest: string, t: int)
    requires CommitStep(a, b, c, rest) && t < a.clients[c].latest.info.nextCatalogId
    ensures
      var cs, made := a.clients[c].changes, Last(b.log).made;
      && (t in made.inserted <==> exists x :: x in cs && Writes(x, t))
      && (t in made.altered <==> exists x :: x in cs && Alters(x, t))
      && (t in made.dropped <==> exists x :: x in cs && Drops(x, t))
      && (t in Last(b.log).snap.tables <==> t in a.clients[c].latest.tables && !exists x :: x in cs && Drops(x, t))
  {
    hide Outcome, PersistStats, Wrote;
    var client := a.clients[c];
    var used := Loaded(client, a.cells).value;
    var out, cs := Outcome(client, used), client.changes;
    MadeIds(client, used, rest, t);
    forall x | x in cs && TableOf(x) == Some(Existing(t))
      ensures Writes(x, t) ==> t in Last(b.log).made.inserted
      ensures Alters(x, t) ==> t in Last(b.log).made.altered
      ensures Drops(x, t) ==> t in Last(b.log).made.dropped
    {
      assert IdOf(out, Existing(t)) == t;
    }
    NoNewId(client, used, t);
  }

  /** Created tables have new ids. */
  lemma NoNewId(client: Client, used: map<int, TableStats>, t: int)
    requires client.Busy? && t < client.latest.info.nextCatalogId
    ensures t !in CreatedIds(Outcome(client, used), client.changes)
  {
    hide Outcome;
    var out := Outcome(client, used);
    if t in CreatedIds(out, client.changes) {
      var n :| n in CreatedTables(client.changes) && IdOf(out, TableRef.Created(n)) == t;
      var x :| x in client.changes && x.CreateTable? && x.number == n;
      SummaryIds(client, used, x);
    }
  }

  // ----- concurrent commits -----

  /**
   * Nothing happened to the tables of a commit behind its back: since its transaction began no other
   * commit altered or dropped a table that it writes to or alters, nor dropped one that it drops.
   */
  lemma TablesAreAsAtBase(run: seq<System>, rules: (string, string) -> bool, i: nat, j: int, k: int, t: int)
    requires CarefulRun(run, rules) && i < |run| && 0 < k < |run[i].log| && 0 < j < k && run[i].log[k].base < j
    ensures
      var mine, theirs := run[i].log[k].made, run[i].log[j].made;
      && (t in mine.inserted || t in mine.altered ==> t !in theirs.altered && t !in theirs.dropped)
      && (t in mine.dropped ==> t !in theirs.dropped)
  {
    hide Serialised, CarefulRun;
    CommitsAreSerialised(run, rules, i, k);
    NoTableConflict(run[i].log, rules, j, k);
    var mine, theirs := run[i].log[k].made, run[i].log[j].made;
    var insertions := mine.inserted * (theirs.dropped + theirs.altered);
    var alterations := mine.altered * (theirs.altered + theirs.dropped);
    var drops := mine.dropped * theirs.dropped;
    assert t !in insertions && t !in alterations && t !in drops;
  }

  lemma NoTableConflict(log: seq<Entry>, rules: (string, string) -> bool, j: int, k: int)
    requires 0 < k < |log| && Serialised(log, k, rules) && log[k].base < j < k
    ensures 0 < j && !TablesConflict(log[k].made, log[j].made)
  {
    hide Conflicts, TablesConflict, Upto, SameStats, Below;
  }

  // ----- retries -----

  ghost predicate FewAttempts(s: System) { forall x :: x in s.clients && x.Busy? ==> x.attempt <= 10 }

  lemma OneClientMoves(a: System, b: System, c: nat, next: Client)
    requires FewAttempts(a) && c < |a.clients| && b.clients == a.clients[c := next]
    requires next.Busy? ==> next.attempt <= 10
    ensures FewAttempts(b)
  {
    forall x | x in b.clients && x.Busy? ensures x.attempt <= 10 {
      assert x == next || x in a.clients;
    }
  }

  lemma AttemptOf(a: System, c: nat)
    requires FewAttempts(a) && c < |a.clients| && a.clients[c].Busy?
    ensures a.clients[c].attempt <= 10
  {
  }

  lemma StepKeepsAttemptsFew(a: System, b: System, rules: (string, string) -> bool)
    requires FewAttempts(a) && Step(a, b, rules)
    ensures FewAttempts(b)
  {
    hide FewAttempts, Acquire, Outcome, SummaryOf, ValidChanges, Conflicts, PersistStats, NextSnap, RequiresStats, Recorded, Wrote,
         IsLatest, ShareStep, LoadStep, ExpireStep, Loaded;
    if c: nat, head, cs, i: nat :| BeginStep(a, b, c, head, cs, i) {
      OneClientMoves(a, b, c, b.clients[c]);
    } else if c: nat, rest :| CommitStep(a, b, c, rest) {
      OneClientMoves(a, b, c, Idle);
    } else if c: nat, error, used, rest :| FailStep(a, b, c, error, used, rest) {
      AttemptOf(a, c);
      OneClientMoves(a, b, c, b.clients[c]);
    } else if c: nat, head, i: nat :| RefreshStep(a, b, c, head, i) {
      AttemptOf(a, c);
      OneClientMoves(a, b, c, b.clients[c]);
    } else if c: nat :| CheckStep(a, b, c, rules) {
      AttemptOf(a, c);
      OneClientMoves(a, b, c, b.clients[c]);
    } else {
      OtherStepsKeepClients(a, b, rules);
    }
  }

  lemma OtherStepsKeepClients(a: System, b: System, rules: (string, string) -> bool)
    requires FewAttempts(a)
    requires (exists k: nat, i: nat :: ShareStep(a, b, k, i)) || (exists i: nat :: LoadStep(a, b, i))
             || (exists head, ids, dead :: ExpireStep(a, b, head, ids, dead))
    ensures FewAttempts(b)
  {
    assert b.clients == a.clients;
  }

  /** In every run a transaction makes at most ten attempts after its first. */
  lemma {:induction false} AttemptsAreFew(run: seq<System>, rules: (string, string) -> bool, i: nat)
    requires Run(run, rules) && i < |run|
    ensures FewAttempts(run[i])
  {
    hide FewAttempts, Step;
    if i == 0 {
      NoAttempts(run[0]);
    } else {
      AttemptsAreFew(run, rules, i - 1);
      assert Step(run[i - 1], run[i - 1 + 1], rules);
      StepKeepsAttemptsFew(run[i - 1], run[i], rules);
    }
  }

  lemma NoAttempts(s: System)
    requires Initial(s)
    ensures FewAttempts(s)
  {
  }
}
