/** Runs that show what the gate of undo_merge lets through, and what it holds back for good. */
module UndoCounterexamples {
  import opened Text
  import opened Wrappers
  import opened StoreModel
  import opened Runs
  import opened PersonForest
  import opened MergeInversion
  import opened LinkClosure
  import opened SideTables

  function Unresolved(handle: string): Identity {
    Identity("outlook", handle, None, None, false)
  }

  const FOUR: Store :=
    Store(map[0 := Unresolved("a"), 1 := Unresolved("b"), 2 := Unresolved("c"), 3 := Unresolved("d")], map[], [], [])

  function Manual(a: IdentityId, b: IdentityId, newPerson: PersonId): Event {
    Merge(a, b, "r", "manual", newPerson, Names("", None))
  }

  /** Merging two unresolved identities by hand: enough of the result to follow the examples below. */
  lemma FirstMerge(s: Store, a: IdentityId, b: IdentityId, newPerson: PersonId)
    requires a in s.identities && b in s.identities && newPerson !in s.persons
    requires s.identities[a].personId == None && s.identities[b].personId == None
    ensures Possible(s, Manual(a, b, newPerson))
    ensures var t := Step(s, Manual(a, b, newPerson));
      && t.identities.Keys == s.identities.Keys && t.persons.Keys == s.persons.Keys + {newPerson}
      && (forall i :: i in s.identities ==>
           t.identities[i].personId == if i == a || i == b then Some(newPerson) else s.identities[i].personId)
      && |t.log| == |s.log| + 1 && t.log[..|s.log|] == s.log
      && t.log[|s.log|] == MergeRow(a, b, newPerson, None, {a, b}, Names("", None), "r", "manual", false)
  {
    assert !IsSpace("r"[0]);
    assert s.Contact(IdentityKey(a)) == {a} && s.Contact(IdentityKey(b)) == {b};
  }

  /** Merging across two contacts by hand. */
  lemma FoldMerge(s: Store, a: IdentityId, b: IdentityId, newPerson: PersonId)
    requires a in s.identities && b in s.identities && newPerson !in s.persons
    requires s.identities[a].personId.Some? && s.identities[b].personId.Some?
    ensures Possible(s, Manual(a, b, newPerson))
    ensures var t := Step(s, Manual(a, b, newPerson));
      && t.identities.Keys == s.identities.Keys
      && t.identities[a].personId == s.identities[a].personId
      && |t.log| == |s.log| + 1 && t.log[..|s.log|] == s.log
      && t.log[|s.log|].survivor == s.identities[a].personId.value
      && Ends(t.log[|s.log|], a, b) && !t.log[|s.log|].reversed
  {
    assert !IsSpace("r"[0]);
  }

  lemma AcceptedUndo(s: Store, k: nat)
    requires AcceptsUndo(s, k)
    ensures Possible(s, Undo(k))
    ensures var t := Step(s, Undo(k));
      && t.identities.Keys == s.identities.Keys && t.persons.Keys == s.persons.Keys
      && (forall i :: i in s.identities ==>
           t.identities[i].personId == if i in s.log[k].moved then s.log[k].absorbed else s.identities[i].personId)
      && t.log == s.log[k := s.log[k].(reversed := true)]
  {
  }

  lemma RunOfFour(s: Store, run: seq<Event>)
    requires |run| == 4 && Possible(s, run[0])
    requires Possible(Step(s, run[0]), run[1])
    requires var s2 := Step(Step(s, run[0]), run[1]); Possible(s2, run[2]) && Possible(Step(s2, run[2]), run[3])
    ensures IsRun(s, run)
    ensures Final(s, run) == Step(Step(Step(Step(s, run[0]), run[1]), run[2]), run[3])
  {
    hide Step, Possible;
    var r1, r2, r3 := run[1..], run[2..], run[3..];
    assert r1[1..] == r2 && r2[1..] == r3 && r3[1..] == [];
    var s1 := Step(s, run[0]);
    var s2 := Step(s1, run[1]);
    var s3 := Step(s2, run[2]);
    assert IsRun(Step(s3, run[3]), []);
    assert IsRun(s3, r3) && Final(s3, r3) == Step(s3, run[3]);
    assert IsRun(s2, r2) && Final(s2, r2) == Final(s3, r3);
    assert IsRun(s1, r1) && Final(s1, r1) == Final(s2, r2);
  }

  lemma FourIsSound()
    ensures Sound(FOUR)
  {
    assert RanksDown(FOUR.persons, map[]);
  }

  const TWICE := [Manual(0, 1, 10), Undo(0), Manual(0, 2, 11), Undo(0)]

  /** After the merge of 0 and 1 and its undo everybody is unresolved again, and the row stays. */
  lemma MergedAndUndone()
    ensures Possible(FOUR, TWICE[0]) && Possible(Step(FOUR, TWICE[0]), TWICE[1])
    ensures var s := Step(Step(FOUR, TWICE[0]), TWICE[1]);
      && s.identities.Keys == FOUR.identities.Keys && s.persons.Keys == {10}
      && (forall i :: i in s.identities ==> s.identities[i].personId == None)
      && s.log == [MergeRow(0, 1, 10, None, {0, 1}, Names("", None), "r", "manual", true)]
  {
    hide Step, Possible;
    FirstMerge(FOUR, 0, 1, 10);
    AcceptedUndo(Step(FOUR, TWICE[0]), 0);
  }

  /**
    Undoing one row twice is accepted and takes an identity away from the merge that followed:
    0 and 2 stay connected in the log, yet are two contacts.
   */
  lemma RepeatedUndoBreaksClosure()
    ensures Sound(FOUR) && IsRun(FOUR, TWICE)
    ensures var s := Final(FOUR, TWICE);
      Connected(History(FOUR, map[]), s.log, 0, 2) && 0 in s.identities && 2 in s.identities && s.KeyOf(0) != s.KeyOf(2)
  {
    hide Step, Sound, Possible, IsRun, Final, Connected;
    FourIsSound();
    MergedAndUndone();
    var s2 := Step(Step(FOUR, TWICE[0]), TWICE[1]);
    FirstMerge(s2, 0, 2, 11);
    var s3 := Step(s2, TWICE[2]);
    assert s3.log[0] == s3.log[..1][0] == s2.log[0];
    AcceptedUndo(s3, 0);
    var s4 := Step(s3, TWICE[3]);
    RunOfFour(FOUR, TWICE);
    assert InForce(FOUR, s4.log, 1) && Ends(s4.log[1], 0, 2);
    ConnectedDirectly(History(FOUR, map[]), s4.log, 0, 2);
  }

  const UNDER := [Manual(0, 1, 10), Manual(2, 3, 11), Manual(2, 0, 12), Undo(0)]

  /**
    An undo whose survivor was absorbed by a later merge is accepted too: the later merge of 2 and 0
    is in force, yet 0 has left the contact it made.
   */
  lemma UndoUnderAbsorbedSurvivorBreaksClosure()
    ensures Sound(FOUR) && IsRun(FOUR, UNDER)
    ensures var s := Final(FOUR, UNDER);
      Connected(History(FOUR, map[]), s.log, 2, 0) && 0 in s.identities && 2 in s.identities && s.KeyOf(2) != s.KeyOf(0)
  {
    hide Step, Sound;
    FourIsSound();
    FirstMerge(FOUR, 0, 1, 10);
    var s1 := Step(FOUR, UNDER[0]);
    FirstMerge(s1, 2, 3, 11);
    var s2 := Step(s1, UNDER[1]);
    assert s2.log[0] == s2.log[..1][0] == s1.log[0];
    FoldMerge(s2, 2, 0, 12);
    var s3 := Step(s2, UNDER[2]);
    assert s3.log[0] == s3.log[..2][0] == s2.log[0] && s3.log[1] == s3.log[..2][1] == s2.log[1];
    AcceptedUndo(s3, 0);
    var s4 := Step(s3, UNDER[3]);
    RunOfFour(FOUR, UNDER);
    assert InForce(FOUR, s4.log, 2) && Ends(s4.log[2], 2, 0);
    ConnectedDirectly(History(FOUR, map[]), s4.log, 2, 0);
  }

  // ---------------------------------------------------------------- what the gate holds back for good

  /** Merging an unresolved identity into a person's contact. */
  lemma LaterMergeInto(s: Store, a: IdentityId, b: IdentityId, newPerson: PersonId)
    requires a in s.identities && b in s.identities && newPerson !in s.persons
    requires s.identities[a].personId.Some? && s.identities[b].personId == None
    ensures Possible(s, Manual(a, b, newPerson))
    ensures var t := Step(s, Manual(a, b, newPerson));
      && |t.log| == |s.log| + 1 && t.log[..|s.log|] == s.log
      && Some(t.log[|s.log|].survivor) == s.identities[a].personId
  {
    assert !IsSpace("r"[0]);
  }

  const ORDERED := [Manual(0, 1, 10), Manual(0, 2, 11), Undo(1), Undo(0)]

  /**
    The order the design document prescribes, later merge first: the later merge is undone, and the
    earlier row is refused all the same, then and in every continuation. It is stuck.
   */
  lemma OrderedUndoGetsStuck()
    ensures Sound(FOUR) && IsRun(FOUR, ORDERED)
    ensures var s := Final(FOUR, ORDERED);
      && |s.log| == 2 && !s.log[0].reversed && s.log[1].reversed
      && forall more :: IsRun(s, more) ==> UndoMerge(Final(s, more), 0) == Err(LaterMerge)
  {
    hide Step, Sound, Possible, IsRun, Final;
    FourIsSound();
    FirstMerge(FOUR, 0, 1, 10);
    var s1 := Step(FOUR, ORDERED[0]);
    LaterMergeInto(s1, 0, 2, 11);
    var s2 := Step(s1, ORDERED[1]);
    assert s2.log[0] == s2.log[..1][0] == s1.log[0];
    AcceptedUndo(s2, 1);
    var s3 := Step(s2, ORDERED[2]);
    assert s3.log[1].survivor == s3.log[0].survivor;
    RefusedUndo(s3, 0);
    RunOfFour(FOUR, ORDERED);
    forall more | IsRun(s3, more) ensures UndoMerge(Final(s3, more), 0) == Err(LaterMerge) {
      RefusedForever(s3, more, 0);
    }
  }

  lemma RefusedUndo(s: Store, k: nat)
    requires k < |s.log| && BuiltUpon(s.log, k)
    ensures Possible(s, Undo(k)) && Step(s, Undo(k)) == s && UndoMerge(s, k) == Err(LaterMerge)
  {
  }

  const SAME := [Call(0, 1, "r", "manual", 10, Names("", None)), Call(0, 2, "r", "manual", 11, Names("", None))]

  /** The same two merges, undone newest first through the gate: the second undo fails. */
  lemma NewestFirstFails()
    ensures AllCallable(FOUR, SAME) && UndoneNewestFirst(ApplyAll(FOUR, SAME), 0, 2) == None
  {
    FirstMerge(FOUR, 0, 1, 10);
    var s1 := Step(FOUR, Manual(0, 1, 10));
    assert !IsSpace("r"[0]);
    assert s1 == Apply(FOUR, SAME[0]) && Callable(FOUR, SAME[0]);
    LaterMergeInto(s1, 0, 2, 11);
    var s2 := Step(s1, Manual(0, 2, 11));
    hide Merged;
    assert s2 == Apply(s1, SAME[1]) && Callable(s1, SAME[1]);
    assert SAME[1..] == [SAME[1]] && SAME[1..][1..] == [];
    assert AllCallable(s2, []) && ApplyAll(s2, []) == s2;
    assert AllCallable(s1, SAME[1..]) && ApplyAll(s1, SAME[1..]) == s2;
    assert s2.log[0] == s2.log[..1][0] == s1.log[0];
    assert s2.log[0].survivor == s2.log[1].survivor;
    NewestFirstIsUnwinding(s2, 0, 2);
  }

  // ---------------------------------------------------------------- side tables left behind

  /** A brief under the key of person 10. */
  const BRIEFS: Table<string> := map[PersonKey(10) := Stamped("brief", 0)]

  /** One merge and its undo: the brief of the contact they made and unmade is left under a key that shows nobody. */
  lemma UndoOrphansBrief()
    ensures Possible(FOUR, Manual(0, 1, 10))
    ensures var s := Step(FOUR, Manual(0, 1, 10));
      Sound(s) && NoOrphan(s, BRIEFS) && AcceptsUndo(s, 0) && !NoOrphan(Unmerged(s, 0), BRIEFS)
  {
    hide Step, Sound;
    FourIsSound();
    FirstMerge(FOUR, 0, 1, 10);
    var s := Step(FOUR, Manual(0, 1, 10));
    StepKeepsSound(FOUR, Manual(0, 1, 10));
    assert s.Contact(PersonKey(10)) == {0, 1};
    IntactUndoOrphansIff(s, 0, BRIEFS);
  }

  /**
    A handle added to an unresolved identity that has a brief: the identity moves to a new person, its brief
    does not.
   */
  lemma AddedHandleOrphansBrief()
    ensures var briefs: Table<string> := map[IdentityKey(0) := Stamped("brief", 0)];
      && Sound(FOUR) && NoOrphan(FOUR, briefs)
      && Possible(FOUR, AddHandle(IdentityKey(0), 0, 4, "outlook", "e", 10))
      && Step(FOUR, AddHandle(IdentityKey(0), 0, 4, "outlook", "e", 10)) == AddedHandle(FOUR, 0, 4, "outlook", "e", 10)
      && !NoOrphan(AddedHandle(FOUR, 0, 4, "outlook", "e", 10), briefs)
  {
    var briefs: Table<string> := map[IdentityKey(0) := Stamped("brief", 0)];
    FourIsSound();
    assert FOUR.Contact(IdentityKey(0)) == {0};
    AddedHandleOrphansIff(FOUR, 0, 4, "outlook", "e", 10, briefs);
  }
}
