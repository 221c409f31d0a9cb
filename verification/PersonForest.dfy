/**
  In every store that any interleaving of events reaches, including undos out of order and repeated
  undos of one row, no identity points at a folded person and merged_into is an acyclic forest.
 */
module PersonForest {
  import opened Wrappers
  import opened StoreModel
  import opened SafetyChecks
  import opened Runs

  // ---------------------------------------------------------------- the invariant

  /** The foreign keys of identity and person. */
  ghost predicate ForeignKeys(s: Store) {
    && (forall i :: i in s.identities && s.identities[i].personId.Some? ==> s.identities[i].personId.value in s.persons)
    && (forall p :: p in s.persons && s.persons[p].mergedInto.Some? ==> s.persons[p].mergedInto.value in s.persons)
  }

  /** The foreign keys of merge_log. */
  ghost predicate RowReferences(s: Store, row: MergeRow) {
    && row.survivor in s.persons
    && row.a in s.identities && row.b in s.identities && row.moved <= s.identities.Keys
    && (row.absorbed.Some? ==> row.absorbed.value in s.persons && row.absorbed.value != row.survivor)
  }

  /** Every person that holds an identity is a root: what makes a merge invertible. */
  ghost predicate HoldersAreRoots(s: Store) {
    forall i :: i in s.identities && s.identities[i].personId.Some? ==> s.IsRoot(s.identities[i].personId.value)
  }

  ghost predicate RanksDown(persons: map<PersonId, Person>, rank: map<PersonId, nat>) {
    && rank.Keys == persons.Keys
    && forall p :: p in persons && persons[p].mergedInto.Some? ==>
         persons[p].mergedInto.value in persons && rank[persons[p].mergedInto.value] < rank[p]
  }

  ghost predicate Ranked(persons: map<PersonId, Person>) {
    exists rank :: RanksDown(persons, rank)
  }

  ghost predicate Sound(s: Store) {
    && ForeignKeys(s)
    && (forall k :: 0 <= k < |s.log| ==> RowReferences(s, s.log[k]))
    && HoldersAreRoots(s)
    && Ranked(s.persons)
  }

  // ---------------------------------------------------------------- single effects

  lemma FoldKeepsRank(before: map<PersonId, Person>, after: map<PersonId, Person>, child: PersonId, root: PersonId)
    requires Ranked(before)
    requires child in before && root in before && child != root && before[root].mergedInto == None
    requires after.Keys == before.Keys
    requires after[child].mergedInto == Some(root)
    requires forall p :: p in before && p != child ==> after[p].mergedInto == before[p].mergedInto
    ensures Ranked(after)
  {
    var rank :| RanksDown(before, rank);
    assert RanksDown(after, map p | p in before :: if p == root then 0 else rank[p] + 1);
  }

  lemma MergeKeepsReferences(s: Store, a: IdentityId, b: IdentityId, rule: string, kind: string, newPerson: PersonId,
                             names: Names)
    requires Sound(s) && a in s.identities && b in s.identities
    ensures var t := Merged(s, a, b, rule, kind, newPerson, names);
      ForeignKeys(t) && forall k :: 0 <= k < |t.log| ==> RowReferences(t, t.log[k])
  {
    var t := Merged(s, a, b, rule, kind, newPerson, names);
    assert t.persons.Keys == s.persons.Keys + {Survivor(s, a, b, newPerson)};
    assert t.identities.Keys == s.identities.Keys;
    forall k | 0 <= k < |t.log| ensures RowReferences(t, t.log[k]) {
      if k < |s.log| {
        assert RowReferences(s, s.log[k]);
      }
    }
  }

  lemma MergeKeepsHolders(s: Store, a: IdentityId, b: IdentityId, rule: string, kind: string, newPerson: PersonId,
                          names: Names)
    requires Sound(s) && a in s.identities && b in s.identities && newPerson !in s.persons
    ensures HoldersAreRoots(Merged(s, a, b, rule, kind, newPerson, names))
  {
    var t := Merged(s, a, b, rule, kind, newPerson, names);
    forall i | i in t.identities && t.identities[i].personId.Some? ensures t.IsRoot(t.identities[i].personId.value) {
      if i !in Joined(s, a, b) {
        var p := s.identities[i].personId.value;
        assert s.KeyOf(i) == PersonKey(p);
        assert Absorbed(s, a, b) != Some(p);
      }
    }
  }

  lemma MergeKeepsRank(s: Store, a: IdentityId, b: IdentityId, rule: string, kind: string, newPerson: PersonId,
                       names: Names)
    requires Sound(s) && a in s.identities && b in s.identities && newPerson !in s.persons
    ensures Ranked(Merged(s, a, b, rule, kind, newPerson, names).persons)
  {
    var t := Merged(s, a, b, rule, kind, newPerson, names);
    match Absorbed(s, a, b)
    case Some(child) => FoldKeepsRank(s.persons, t.persons, child, Survivor(s, a, b, newPerson));
    case None =>
      var rank :| RanksDown(s.persons, rank);
      assert RanksDown(t.persons, map p | p in t.persons :: if p in rank then rank[p] else 0);
  }

  lemma MergeKeepsSound(s: Store, a: IdentityId, b: IdentityId, rule: string, kind: string, newPerson: PersonId,
                        names: Names)
    requires Sound(s) && a in s.identities && b in s.identities && newPerson !in s.persons
    ensures Sound(Merged(s, a, b, rule, kind, newPerson, names))
  {
    MergeKeepsReferences(s, a, b, rule, kind, newPerson, names);
    MergeKeepsHolders(s, a, b, rule, kind, newPerson, names);
    MergeKeepsRank(s, a, b, rule, kind, newPerson, names);
  }

  lemma UndoKeepsReferences(s: Store, k: nat)
    requires Sound(s) && k < |s.log|
    ensures var t := Unmerged(s, k);
      ForeignKeys(t) && forall m :: 0 <= m < |t.log| ==> RowReferences(t, t.log[m])
  {
    var t := Unmerged(s, k);
    assert RowReferences(s, s.log[k]);
    forall m | 0 <= m < |t.log| ensures RowReferences(t, t.log[m]) {
      assert RowReferences(s, s.log[m]);
    }
  }

  lemma UndoKeepsSound(s: Store, k: nat)
    requires Sound(s) && k < |s.log|
    ensures Sound(Unmerged(s, k))
  {
    var t := Unmerged(s, k);
    UndoKeepsReferences(s, k);
    assert RowReferences(s, s.log[k]);
    var rank :| RanksDown(s.persons, rank);
    assert RanksDown(t.persons, rank);
  }

  lemma AddHandleKeepsSound(s: Store, rep: IdentityId, i: IdentityId, channel: string, handle: string,
                            newPerson: PersonId)
    requires Sound(s) && rep in s.identities && i !in s.identities && newPerson !in s.persons
    ensures Sound(AddedHandle(s, rep, i, channel, handle, newPerson))
  {
    var t := AddedHandle(s, rep, i, channel, handle, newPerson);
    forall k | 0 <= k < |t.log| ensures RowReferences(t, t.log[k]) {
      assert RowReferences(s, s.log[k]);
    }
    var rank :| RanksDown(s.persons, rank);
    assert RanksDown(t.persons, map p | p in t.persons :: if p in rank then rank[p] else 0);
  }

  lemma SameTablesKeepSound(s: Store, t: Store)
    requires Sound(s) && t.persons == s.persons && t.log == s.log
    requires s.identities.Keys <= t.identities.Keys
    requires forall i :: i in t.identities ==>
      t.identities[i].personId == (if i in s.identities then s.identities[i].personId else None)
    ensures Sound(t)
  {
    forall k | 0 <= k < |t.log| ensures RowReferences(t, t.log[k]) {
      assert RowReferences(s, s.log[k]);
    }
  }

  lemma StepKeepsSound(s: Store, e: Event)
    requires Sound(s) && Possible(s, e)
    ensures Sound(Step(s, e))
  {
    hide Merged, Unmerged, AutomaticStatus;
    match e
    case Arrive(i, record) => SameTablesKeepSound(s, Step(s, e));
    case Merge(a, b, rule, kind, newPerson, names) =>
      if ApplyMerge(s, a, b, rule, kind, newPerson, names).Ok? {
        MergeKeepsSound(s, a, b, rule, kind, newPerson, names);
      }
    case Undo(k) =>
      if k < |s.log| {
        UndoKeepsSound(s, k);
      }
    case LinkContact(_, rep, other, newPerson, names) =>
      if other in s.identities {
        MergeKeepsSound(s, rep, other, "manual_link", "manual", newPerson, names);
      }
    case AddHandle(_, rep, i, channel, handle, newPerson) => AddHandleKeepsSound(s, rep, i, channel, handle, newPerson);
    case Propose(a, b, rule, blocked, newPerson, names) =>
      var queued := Appended(s, Candidate(a, b, rule, AutomaticStatus(s, a, b, blocked)));
      SameTablesKeepSound(s, queued);
      MergeKeepsSound(queued, a, b, rule, "automatic", newPerson, names);
    case Queue(a, b, rule) => SameTablesKeepSound(s, Step(s, e));
    case Confirm(c, newPerson, names) =>
      if c < |s.candidates| {
        var row := s.candidates[c];
        var claimed := s.(candidates := s.candidates[c := row.(status := Confirmed)]);
        SameTablesKeepSound(s, claimed);
        if row.a in s.identities && row.b in s.identities {
          MergeKeepsSound(claimed, row.a, row.b, row.rule, "review", newPerson, names);
        }
      }
    case Reject(c) => SameTablesKeepSound(s, Step(s, e));
    case FillName(_, _) => SameTablesKeepSound(s, Step(s, e));
    case RenameContact(_, _) => SameTablesKeepSound(s, Step(s, e));
  }

  lemma {:induction false} RunKeepsSound(s: Store, run: seq<Event>)
    requires Sound(s) && IsRun(s, run)
    ensures Sound(Final(s, run))
    decreases |run|
  {
    if run != [] {
      StepKeepsSound(s, run[0]);
      RunKeepsSound(Step(s, run[0]), run[1..]);
    }
  }

  // ---------------------------------------------------------------- what the invariant means

  /** The person reached from p after following merged_into n times. */
  function Follow(persons: map<PersonId, Person>, p: PersonId, n: nat): Option<PersonId>
    decreases n
  {
    if p !in persons then None
    else if n == 0 then Some(p)
    else match persons[p].mergedInto
      case None => None
      case Some(q) => Follow(persons, q, n - 1)
  }

  lemma {:induction false} FollowingDescends(persons: map<PersonId, Person>, rank: map<PersonId, nat>, p: PersonId,
                                             n: nat)
    requires RanksDown(persons, rank) && p in persons
    ensures Follow(persons, p, n).Some? ==>
      Follow(persons, p, n).value in persons && rank[Follow(persons, p, n).value] + n <= rank[p]
    decreases n
  {
    if n > 0 && persons[p].mergedInto.Some? {
      FollowingDescends(persons, rank, persons[p].mergedInto.value, n - 1);
    }
  }

  lemma {:induction false} FollowingReachesRoot(s: Store, rank: map<PersonId, nat>, p: PersonId) returns (n: nat)
    requires RanksDown(s.persons, rank) && p in s.persons
    ensures Follow(s.persons, p, n).Some? && s.IsRoot(Follow(s.persons, p, n).value)
    decreases rank[p]
  {
    match s.persons[p].mergedInto
    case None => n := 0;
    case Some(q) =>
      var m := FollowingReachesRoot(s, rank, q);
      n := m + 1;
  }

  ghost predicate NoCycle(persons: map<PersonId, Person>) {
    forall p: PersonId, n: nat :: n > 0 ==> Follow(persons, p, n) != Some(p)
  }

  ghost predicate ReachesRoot(s: Store, p: PersonId) {
    exists n: nat :: Follow(s.persons, p, n).Some? && s.IsRoot(Follow(s.persons, p, n).value)
  }

  lemma RankedHasNoCycle(persons: map<PersonId, Person>)
    requires Ranked(persons)
    ensures NoCycle(persons)
  {
    var rank :| RanksDown(persons, rank);
    forall p: PersonId, n: nat | n > 0 && p in persons ensures Follow(persons, p, n) != Some(p) {
      FollowingDescends(persons, rank, p, n);
    }
  }

  /**
    The forest theorem. No identity of a reachable store sits at a person with merged_into set,
    no person forwards to itself after one or more hops, and every person forwards to a root.
   */
  lemma ReachableStoresAreForests(s: Store, run: seq<Event>)
    requires Sound(s) && IsRun(s, run)
    ensures HoldersAreRoots(Final(s, run))
    ensures NoCycle(Final(s, run).persons)
    ensures forall p :: p in Final(s, run).persons ==> ReachesRoot(Final(s, run), p)
  {
    RunKeepsSound(s, run);
    var t := Final(s, run);
    RankedHasNoCycle(t.persons);
    var rank :| RanksDown(t.persons, rank);
    forall p | p in t.persons ensures ReachesRoot(t, p) {
      var n := FollowingReachesRoot(t, rank, p);
    }
  }
}
