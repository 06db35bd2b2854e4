/**
 * Tag edits of one commit (`persist_tags` in transaction/transaction_changes.rs). Each round takes
 * the next edit of every object, retires the matching open rows of all of them, then inserts.
 * The owner of a tag is any value: a table id, or a table and column id.
 */
module Tags {
  import opened Prelude
  import opened Versions

  datatype TagChange = TagChange(key: string, value: Option<string>)

  datatype Tag<K> = Tag(owner: K, key: string, value: string)

  /** The edits of one object, in order; a commit holds at most one such entry per object. */
  datatype Edits<K> = Edits(owner: K, changes: seq<TagChange>)

  ghost predicate Equivalence(same: (string, string) -> bool) {
    && (forall a :: same(a, a))
    && (forall a, b :: same(a, b) ==> same(b, a))
    && (forall a, b, c :: same(a, b) && same(b, c) ==> same(a, c))
  }

  ghost predicate DistinctOwners<K>(pending: seq<Edits<K>>) {
    forall i, j :: 0 <= i < j < |pending| ==> pending[i].owner != pending[j].owner
  }

  // ----- the rounds -----

  /** The (owner, key) pairs one round retires. */
  function Retirements<K>(pending: seq<Edits<K>>, round: nat): seq<(K, string)> {
    if pending == [] then []
    else
      var rest := Retirements(pending[1..], round);
      if round < |pending[0].changes| then [(pending[0].owner, pending[0].changes[round].key)] + rest else rest
  }

  function Inserts<K>(pending: seq<Edits<K>>, round: nat, n: int): seq<Versioned<Tag<K>>> {
    if pending == [] then []
    else
      var rest := Inserts(pending[1..], round, n);
      if round < |pending[0].changes| && pending[0].changes[round].value.Some? then
        var change := pending[0].changes[round];
        [Versioned(n, None, Tag(pending[0].owner, change.key, change.value.value))] + rest
      else rest
  }

  predicate Matches<K(==)>(tag: Tag<K>, retirements: seq<(K, string)>, same: (string, string) -> bool) {
    exists i :: 0 <= i < |retirements| && tag.owner == retirements[i].0 && same(tag.key, retirements[i].1)
  }

  function Matching<K(==)>(retirements: seq<(K, string)>, same: (string, string) -> bool): Tag<K> -> bool {
    (t: Tag<K>) => Matches(t, retirements, same)
  }

  function RunRound<K(==)>(rows: seq<Versioned<Tag<K>>>, pending: seq<Edits<K>>, round: nat, n: int,
                           same: (string, string) -> bool): seq<Versioned<Tag<K>>>
  {
    var retirements := Retirements(pending, round);
    Advance(rows, Matching(retirements, same), n, Inserts(pending, round, n))
  }

  function LongestEdits<K>(pending: seq<Edits<K>>): (m: nat)
    ensures forall e :: e in pending ==> |e.changes| <= m
    ensures pending == [] ==> m == 0
    ensures m > 0 ==> exists e :: e in pending && |e.changes| == m
  {
    if pending == [] then 0
    else
      var rest := LongestEdits(pending[1..]);
      assert pending == [pending[0]] + pending[1..];
      if |pending[0].changes| > rest then |pending[0].changes| else rest
  }

  /** All rounds before `round`. */
  function RunRounds<K(==)>(rows: seq<Versioned<Tag<K>>>, pending: seq<Edits<K>>, round: nat, n: int,
                            same: (string, string) -> bool): seq<Versioned<Tag<K>>>
  {
    if round == 0 then rows
    else RunRound(RunRounds(rows, pending, round - 1, n, same), pending, round - 1, n, same)
  }

  lemma {:induction false} RetirementsEmpty<K>(pending: seq<Edits<K>>, round: nat)
    ensures Retirements(pending, round) == [] <==> LongestEdits(pending) <= round
  {
    if pending != [] {
      RetirementsEmpty(pending[1..], round);
    }
  }

  /** The body of the loop: what the next edit of every object retires and inserts. */
  method CollectRound<K>(pending: seq<Edits<K>>, round: nat, n: int)
    returns (retirements: seq<(K, string)>, inserts: seq<Versioned<Tag<K>>>)
    ensures retirements == Retirements(pending, round)
    ensures inserts == Inserts(pending, round, n)
  {
    retirements, inserts := [], [];
    var i := |pending|;
    while i > 0
      invariant 0 <= i <= |pending|
      invariant retirements == Retirements(pending[i..], round)
      invariant inserts == Inserts(pending[i..], round, n)
    {
      i := i - 1;
      var edits := pending[i];
      assert pending[i..][0] == edits && pending[i..][1..] == pending[i + 1..];
      if round < |edits.changes| {
        var change := edits.changes[round];
        retirements := [(edits.owner, change.key)] + retirements;
        if change.value.Some? {
          inserts := [Versioned(n, None, Tag(edits.owner, change.key, change.value.value))] + inserts;
        }
      }
    }
    assert pending[0..] == pending;
  }

  /** `persist_tags`. */
  method PersistTags<K(==)>(rows: seq<Versioned<Tag<K>>>, pending: seq<Edits<K>>, n: int,
                            same: (string, string) -> bool) returns (after: seq<Versioned<Tag<K>>>)
    ensures after == RunRounds(rows, pending, LongestEdits(pending), n, same)
  {
    hide Retire, Inserts, LongestEdits, Matches;
    after := rows;
    var round := 0;
    while true
      invariant round <= LongestEdits(pending)
      invariant after == RunRounds(rows, pending, round, n, same)
      decreases LongestEdits(pending) - round
    {
      var retirements, inserts := CollectRound(pending, round, n);
      RetirementsEmpty(pending, round);
      if retirements == [] {
        break;
      }
      after := Advance(after, Matching(retirements, same), n, inserts);
      round := round + 1;
    }
  }

  // ----- one object's tags, edited in sequence -----

  function OwnedBy<K(==)>(owner: K): Tag<K> -> bool { (t: Tag<K>) => t.owner == owner }

  function OtherKey<K>(key: string, same: (string, string) -> bool): Tag<K> -> bool { (t: Tag<K>) => !same(t.key, key) }

  /** The live tags of one object, in table order. */
  function LiveTags<K(==)>(rows: seq<Versioned<Tag<K>>>, owner: K): seq<Tag<K>> {
    Filter(OwnedBy(owner), Open(rows))
  }

  function ApplyEdit<K>(tags: seq<Tag<K>>, owner: K, change: TagChange, same: (string, string) -> bool): seq<Tag<K>> {
    Filter(OtherKey(change.key, same), tags)
    + (if change.value.Some? then [Tag(owner, change.key, change.value.value)] else [])
  }

  function ApplyEdits<K>(tags: seq<Tag<K>>, owner: K, changes: seq<TagChange>, same: (string, string) -> bool)
    : seq<Tag<K>>
  {
    if changes == [] then tags
    else ApplyEdit(ApplyEdits(tags, owner, changes[..|changes| - 1], same), owner, changes[|changes| - 1], same)
  }

  lemma {:induction false} FilterSwap<T>(p: T -> bool, q: T -> bool, s: seq<T>)
    ensures Filter(p, Filter(q, s)) == Filter(q, Filter(p, s))
  {
    if s != [] {
      FilterSwap(p, q, s[1..]);
      FilterAppend(p, if q(s[0]) then [s[0]] else [], Filter(q, s[1..]));
      FilterAppend(q, if p(s[0]) then [s[0]] else [], Filter(p, s[1..]));
    }
  }

  /** The edits a commit makes to one object; none when it is not mentioned. */
  function ChangesOf<K(==)>(pending: seq<Edits<K>>, owner: K): seq<TagChange> {
    if pending == [] then []
    else if pending[0].owner == owner then pending[0].changes
    else ChangesOf(pending[1..], owner)
  }

  lemma {:induction false} NoChanges<K>(pending: seq<Edits<K>>, owner: K)
    requires forall i :: 0 <= i < |pending| ==> pending[i].owner != owner
    ensures ChangesOf(pending, owner) == []
  {
    if pending != [] {
      NoChanges(pending[1..], owner);
    }
  }

  /** A round retires one key of an object: the key of the object's own next edit. */
  lemma {:induction false} RetirementsOfOwner<K>(pending: seq<Edits<K>>, round: nat, owner: K, key: string)
    requires DistinctOwners(pending)
    ensures (owner, key) in Retirements(pending, round)
       <==> round < |ChangesOf(pending, owner)| && ChangesOf(pending, owner)[round].key == key
  {
    if pending != [] {
      RetirementsOfOwner(pending[1..], round, owner, key);
      if pending[0].owner == owner {
        NoChanges(pending[1..], owner);
      }
    }
  }

  function InsertedBy<K>(owner: K, changes: seq<TagChange>, round: nat): seq<Tag<K>> {
    if round < |changes| && changes[round].value.Some?
    then [Tag(owner, changes[round].key, changes[round].value.value)] else []
  }

  lemma {:induction false} InsertsOfOwner<K>(pending: seq<Edits<K>>, round: nat, n: int, owner: K)
    requires DistinctOwners(pending)
    ensures LiveTags(Inserts(pending, round, n), owner) == InsertedBy(owner, ChangesOf(pending, owner), round)
  {
    if pending != [] {
      InsertsOfOwner(pending[1..], round, n, owner);
      if pending[0].owner == owner {
        NoChanges(pending[1..], owner);
      }
    }
  }

  lemma MatchesOwn<K>(pending: seq<Edits<K>>, round: nat, same: (string, string) -> bool, t: Tag<K>)
    requires DistinctOwners(pending)
    ensures
      var changes := ChangesOf(pending, t.owner);
      Matches(t, Retirements(pending, round), same) <==> round < |changes| && same(t.key, changes[round].key)
  {
    var changes, retirements := ChangesOf(pending, t.owner), Retirements(pending, round);
    if round < |changes| {
      RetirementsOfOwner(pending, round, t.owner, changes[round].key);
    }
    if Matches(t, retirements, same) {
      var i :| 0 <= i < |retirements| && t.owner == retirements[i].0 && same(t.key, retirements[i].1);
      assert retirements[i] == (t.owner, retirements[i].1);
      RetirementsOfOwner(pending, round, t.owner, retirements[i].1);
    }
  }

  lemma AdvanceLive<K>(rows: seq<Versioned<Tag<K>>>, p: Tag<K> -> bool, n: int, added: seq<Versioned<Tag<K>>>, owner: K)
    ensures LiveTags(Advance(rows, p, n, added), owner)
         == Filter(Not(p), LiveTags(rows, owner)) + LiveTags(added, owner)
  {
    var mine := OwnedBy<K>(owner);
    OpenAppend(Retire(rows, p, n), added);
    FilterAppend(mine, Open(Retire(rows, p, n)), Open(added));
    OpenRetired(rows, p, n);
    FilterSwap(mine, Not(p), Open(rows));
  }

  /** One round applies exactly the object's own next edit to its live tags. */
  lemma RoundIsEdit<K>(rows: seq<Versioned<Tag<K>>>, pending: seq<Edits<K>>, round: nat, n: int,
                       same: (string, string) -> bool, owner: K)
    requires DistinctOwners(pending)
    ensures
      var changes, before := ChangesOf(pending, owner), LiveTags(rows, owner);
      LiveTags(RunRound(rows, pending, round, n, same), owner)
      == if round < |changes| then ApplyEdit(before, owner, changes[round], same) else before
  {
    var changes, before := ChangesOf(pending, owner), LiveTags(rows, owner);
    var retirements := Retirements(pending, round);
    var matches := Matching(retirements, same);
    AdvanceLive(rows, matches, n, Inserts(pending, round, n), owner);
    InsertsOfOwner(pending, round, n, owner);
    forall t | t in before
      ensures matches(t) <==> round < |changes| && same(t.key, changes[round].key)
    {
      MatchesOwn(pending, round, same, t);
    }
    if round < |changes| {
      FilterCongruent(Not(matches), OtherKey(changes[round].key, same), before);
    } else {
      FilterAll(Not(matches), before);
      assert before + [] == before;
    }
  }

  function Upto<T>(s: seq<T>, n: nat): seq<T> { if n < |s| then s[..n] else s }

  lemma ApplyOneMore<K>(tags: seq<Tag<K>>, owner: K, changes: seq<TagChange>, m: nat, same: (string, string) -> bool)
    requires 0 < m <= |changes|
    ensures ApplyEdits(tags, owner, Upto(changes, m), same)
         == ApplyEdit(ApplyEdits(tags, owner, Upto(changes, m - 1), same), owner, changes[m - 1], same)
  {
    assert Upto(changes, m) == changes[..m];
    assert changes[..m][..m - 1] == Upto(changes, m - 1);
  }

  lemma RoundAfterRounds<K>(tags: seq<Tag<K>>, before: seq<Versioned<Tag<K>>>, pending: seq<Edits<K>>, round: nat, n: int,
                            same: (string, string) -> bool, owner: K)
    requires DistinctOwners(pending)
    requires LiveTags(before, owner) == ApplyEdits(tags, owner, Upto(ChangesOf(pending, owner), round), same)
    ensures LiveTags(RunRound(before, pending, round, n, same), owner)
         == ApplyEdits(tags, owner, Upto(ChangesOf(pending, owner), round + 1), same)
  {
    var changes := ChangesOf(pending, owner);
    RoundIsEdit(before, pending, round, n, same, owner);
    if round < |changes| {
      ApplyOneMore(tags, owner, changes, round + 1, same);
    }
  }

  /** The rounds together are the object's edits applied one after the other. */
  lemma {:induction false} RoundsAreEdits<K>(rows: seq<Versioned<Tag<K>>>, pending: seq<Edits<K>>, round: nat, n: int,
                                             same: (string, string) -> bool, owner: K)
    requires DistinctOwners(pending)
    ensures LiveTags(RunRounds(rows, pending, round, n, same), owner)
         == ApplyEdits(LiveTags(rows, owner), owner, Upto(ChangesOf(pending, owner), round), same)
    decreases round
  {
    if round == 0 {
      assert Upto(ChangesOf(pending, owner), 0) == [];
    } else {
      var earlier: nat := round - 1;
      var before := RunRounds(rows, pending, earlier, n, same);
      var after := RunRounds(rows, pending, round, n, same);
      assert after == RunRound(before, pending, earlier, n, same);
      RoundsAreEdits(rows, pending, earlier, n, same, owner);
      RoundAfterRounds(LiveTags(rows, owner), before, pending, earlier, n, same, owner);
    }
  }

  lemma {:induction false} ChangesAreShort<K>(pending: seq<Edits<K>>, owner: K)
    ensures |ChangesOf(pending, owner)| <= LongestEdits(pending)
  {
    if pending != [] {
      ChangesAreShort(pending[1..], owner);
    }
  }

  // ----- what the edits promise -----

  ghost predicate UniqueKeys<K>(tags: seq<Tag<K>>, same: (string, string) -> bool) {
    forall i, j :: 0 <= i < j < |tags| ==> !same(tags[i].key, tags[j].key)
  }

  lemma {:induction false} UniqueKeysFilter<K>(p: Tag<K> -> bool, tags: seq<Tag<K>>, same: (string, string) -> bool)
    requires UniqueKeys(tags, same)
    ensures UniqueKeys(Filter(p, tags), same)
  {
    if tags != [] {
      UniqueKeysFilter(p, tags[1..], same);
      var rest := Filter(p, tags[1..]);
      forall j | 0 <= j < |rest| ensures !same(tags[0].key, rest[j].key) {
        assert rest[j] in tags[1..];
      }
    }
  }

  lemma {:induction false} EditsKeepKeysUnique<K>(tags: seq<Tag<K>>, owner: K, changes: seq<TagChange>,
                                                  same: (string, string) -> bool)
    requires Equivalence(same) && UniqueKeys(tags, same)
    ensures UniqueKeys(ApplyEdits(tags, owner, changes, same), same)
  {
    if changes != [] {
      var last := changes[|changes| - 1];
      var before := ApplyEdits(tags, owner, changes[..|changes| - 1], same);
      EditsKeepKeysUnique(tags, owner, changes[..|changes| - 1], same);
      UniqueKeysFilter(OtherKey(last.key, same), before, same);
      var kept := Filter(OtherKey(last.key, same), before);
      forall j | 0 <= j < |kept| ensures !same(kept[j].key, last.key) {
        assert kept[j] in kept;
      }
    }
  }

  lemma RoundPast<K>(rows: seq<Versioned<Tag<K>>>, pending: seq<Edits<K>>, round: nat, n: int,
                     same: (string, string) -> bool, s: int)
    requires s < n
    ensures View(RunRound(rows, pending, round, n, same), s) == View(rows, s)
  {
    InsertsAt(pending, round, n);
    AdvancePast(rows, Matching(Retirements(pending, round), same), n, Inserts(pending, round, n), s);
  }

  lemma {:induction false} RoundsPast<K>(rows: seq<Versioned<Tag<K>>>, pending: seq<Edits<K>>, round: nat, n: int,
                                         same: (string, string) -> bool, s: int)
    requires s < n
    ensures View(RunRounds(rows, pending, round, n, same), s) == View(rows, s)
    decreases round
  {
    if round > 0 {
      var earlier: nat := round - 1;
      RoundsPast(rows, pending, earlier, n, same, s);
      RoundPast(RunRounds(rows, pending, earlier, n, same), pending, earlier, n, same, s);
    }
  }

  lemma {:induction false} InsertsAt<K>(pending: seq<Edits<K>>, round: nat, n: int)
    ensures InsertedAt(Inserts(pending, round, n), n)
  {
    if pending != [] {
      InsertsAt(pending[1..], round, n);
    }
  }

  /**
   * The commit's tag rounds: every object ends up with its own edits applied in order to the tags
   * it had, no key twice, and older snapshots see no change.
   */
  lemma TagRounds<K>(rows: seq<Versioned<Tag<K>>>, pending: seq<Edits<K>>, n: int, same: (string, string) -> bool, owner: K)
    requires DistinctOwners(pending) && Equivalence(same)
    ensures
      var after := RunRounds(rows, pending, LongestEdits(pending), n, same);
      && LiveTags(after, owner) == ApplyEdits(LiveTags(rows, owner), owner, ChangesOf(pending, owner), same)
      && (UniqueKeys(LiveTags(rows, owner), same) ==> UniqueKeys(LiveTags(after, owner), same))
      && (forall s :: s < n ==> View(after, s) == View(rows, s))
  {
    var rounds := LongestEdits(pending);
    var changes := ChangesOf(pending, owner);
    RoundsAreEdits(rows, pending, rounds, n, same, owner);
    ChangesAreShort(pending, owner);
    assert Upto(changes, rounds) == changes;
    if UniqueKeys(LiveTags(rows, owner), same) {
      EditsKeepKeysUnique(LiveTags(rows, owner), owner, changes, same);
    }
    forall s | s < n ensures View(RunRounds(rows, pending, rounds, n, same), s) == View(rows, s) {
      RoundsPast(rows, pending, rounds, n, same, s);
    }
  }

  // ----- what a list of edits leaves -----

  function OfKey<K>(key: string, same: (string, string) -> bool): Tag<K> -> bool { (t: Tag<K>) => same(t.key, key) }

  /** The last of the edits of a key; `None` when the key is not edited. */
  ghost predicate LastEditOf(changes: seq<TagChange>, key: string, same: (string, string) -> bool, i: int) {
    0 <= i < |changes| && same(changes[i].key, key) && forall j :: i < j < |changes| ==> !same(changes[j].key, key)
  }

  /** One edit settles its own key and leaves the others. */
  lemma EditOfKey<K>(before: seq<Tag<K>>, owner: K, change: TagChange, same: (string, string) -> bool, key: string)
    requires Equivalence(same)
    ensures Filter(OfKey(key, same), ApplyEdit(before, owner, change, same))
         == if same(change.key, key)
            then if change.value.Some? then [Tag(owner, change.key, change.value.value)] else []
            else Filter(OfKey(key, same), before)
  {
    var added: seq<Tag<K>> := if change.value.Some? then [Tag(owner, change.key, change.value.value)] else [];
    var kept := Filter(OtherKey(change.key, same), before);
    FilterAppend(OfKey(key, same), kept, added);
    forall t: Tag<K> | same(t.key, key) && same(change.key, key) ensures same(t.key, change.key) {
      assert same(key, change.key);
    }
    if same(change.key, key) {
      FilterNone(OfKey(key, same), kept);
      FilterAll(OfKey(key, same), added);
    } else {
      forall t: Tag<K> | same(t.key, key) ensures !same(t.key, change.key) {
        assert same(t.key, change.key) ==> same(change.key, t.key);
      }
      FilterAbsorbs(OfKey(key, same), OtherKey(change.key, same), before);
      FilterNone(OfKey(key, same), added);
    }
  }

  lemma LastEditInPrefix(changes: seq<TagChange>, key: string, same: (string, string) -> bool, i: int)
    requires changes != [] && LastEditOf(changes, key, same, i)
    ensures
      var last, earlier := changes[|changes| - 1], changes[..|changes| - 1];
      0 <= i < |changes|
      && if same(last.key, key) then i == |changes| - 1
         else i < |earlier| && LastEditOf(earlier, key, same, i) && earlier[i] == changes[i]
  {
  }

  lemma InPrefix(changes: seq<TagChange>, key: string, same: (string, string) -> bool)
    requires changes != [] && forall c :: c in changes ==> !same(c.key, key)
    ensures !same(changes[|changes| - 1].key, key) && forall c :: c in changes[..|changes| - 1] ==> !same(c.key, key)
  {
    assert changes[|changes| - 1] in changes;
  }

  /** After a list of edits a key has the value of its last edit, or no tag if that removed it; other keys keep theirs. */
  lemma {:induction false} LastEditWins<K>(tags: seq<Tag<K>>, owner: K, changes: seq<TagChange>, same: (string, string) -> bool, key: string)
    requires Equivalence(same)
    ensures
      var after := Filter(OfKey(key, same), ApplyEdits(tags, owner, changes, same));
      && (forall i :: 0 <= i < |changes| && LastEditOf(changes, key, same, i) ==>
            after == if changes[i].value.Some? then [Tag(owner, changes[i].key, changes[i].value.value)] else [])
      && ((forall c :: c in changes ==> !same(c.key, key)) ==> after == Filter(OfKey(key, same), tags))
    decreases |changes|
  {
    hide Equivalence, Filter, ApplyEdit, OfKey, LastEditOf;
    if changes != [] {
      var last, earlier := changes[|changes| - 1], changes[..|changes| - 1];
      LastEditWins(tags, owner, earlier, same, key);
      EditOfKey(ApplyEdits(tags, owner, earlier, same), owner, last, same, key);
      forall i | 0 <= i < |changes| && LastEditOf(changes, key, same, i)
        ensures if same(last.key, key) then i == |changes| - 1
                else i < |earlier| && LastEditOf(earlier, key, same, i) && earlier[i] == changes[i]
      {
        LastEditInPrefix(changes, key, same, i);
      }
      if forall c :: c in changes ==> !same(c.key, key) {
        InPrefix(changes, key, same);
      }
    }
  }
}
