/**
  Exactly when an undo that the gate accepts takes every logged identity from the survivor it was
  merged into.
 */
module UndoExactness {
  import opened Wrappers
  import opened StoreModel
  import opened SafetyChecks
  import opened Runs
  import opened PersonForest
  import opened MergeInversion
  import opened LinkClosure
  import opened TreeUpkeep
  import opened SplitTrees
  import opened ClosureRuns

  /** No identity row k moved is at its survivor, or will be brought back there by undoing another row. */
  ghost predicate Released(start: Store, s: Store, k: nat)
    requires k < |s.log|
  {
    && (forall i :: i in s.log[k].moved && i in s.identities ==> s.identities[i].personId != Some(s.log[k].survivor))
    && (forall m :: InForce(start, s.log, m) && s.log[m].absorbed == Some(s.log[k].survivor) ==>
         s.log[m].moved !! s.log[k].moved)
  }

  /** An undone row that nothing was built upon has let go of its identities for good. */
  ghost predicate Spent(start: Store, s: Store) {
    forall k :: |start.log| <= k < |s.log| && s.log[k].reversed && !BuiltUpon(s.log, k) ==> Released(start, s, k)
  }

  lemma MergeKeepsSpent(start: Store, s: Store, a: IdentityId, b: IdentityId, rule: string, kind: string,
                        newPerson: PersonId, names: Names)
    requires Spent(start, s) && a in s.identities && b in s.identities
    ensures Spent(start, Merged(s, a, b, rule, kind, newPerson, names))
  {
    var t := Merged(s, a, b, rule, kind, newPerson, names);
    forall k | |start.log| <= k < |t.log| && t.log[k].reversed && !BuiltUpon(t.log, k) ensures Released(start, t, k) {
      assert t.log[k] == s.log[k] && t.log[|s.log|].survivor != s.log[k].survivor;
      if BuiltUpon(s.log, k) {
        GateRemembers(s.log, t.log, k);
      }
      assert Released(start, s, k);
      assert forall m :: InForce(start, t.log, m) && m < |s.log| ==> InForce(start, s.log, m);
    }
  }

  lemma UndoKeepsSpent(start: Store, s: Store, j: nat)
    requires Sound(s) && Spent(start, s) && AbsorbedOnce(start, s) && CarefulUndo(start, s, j)
    ensures Spent(start, Unmerged(s, j))
  {
    var t := Unmerged(s, j);
    assert RowReferences(s, s.log[j]);
    assert forall m :: InForce(start, t.log, m) ==> InForce(start, s.log, m) && t.log[m] == s.log[m];
    forall k | |start.log| <= k < |t.log| && t.log[k].reversed && !BuiltUpon(t.log, k) ensures Released(start, t, k) {
      if k != j {
        assert !BuiltUpon(s.log, k);
        assert Released(start, s, k);
      }
    }
  }

  lemma SameTablesKeepSpent(start: Store, s: Store, t: Store)
    requires Spent(start, s) && t.log == s.log
    requires s.identities.Keys <= t.identities.Keys
    requires forall i :: i in t.identities ==>
      t.identities[i].personId == (if i in s.identities then s.identities[i].personId else None)
    ensures Spent(start, t)
  {
    forall k | |start.log| <= k < |t.log| && t.log[k].reversed && !BuiltUpon(t.log, k) ensures Released(start, t, k) {
      assert Released(start, s, k);
    }
  }

  lemma AddedHandleKeepsSpent(start: Store, s: Store, rep: IdentityId, i: IdentityId, channel: string, handle: string,
                              newPerson: PersonId)
    requires Sound(s) && Spent(start, s) && rep in s.identities && i !in s.identities && newPerson !in s.persons
    ensures Spent(start, AddedHandle(s, rep, i, channel, handle, newPerson))
  {
    var t := AddedHandle(s, rep, i, channel, handle, newPerson);
    forall k | |start.log| <= k < |t.log| && t.log[k].reversed && !BuiltUpon(t.log, k) ensures Released(start, t, k) {
      assert Released(start, s, k) && RowReferences(s, s.log[k]);
    }
  }

  lemma StepKeepsSpent(start: Store, s: Store, e: Event)
    requires Sound(s) && Spent(start, s) && AbsorbedOnce(start, s) && Possible(s, e) && CarefulEvent(start, s, e)
    ensures Spent(start, Step(s, e))
  {
    hide Sound, Spent, AbsorbedOnce, Merged, Unmerged;
    match e
    case Arrive(_, _) => SameTablesKeepSpent(start, s, Step(s, e));
    case Merge(a, b, rule, kind, newPerson, names) =>
      if ApplyMerge(s, a, b, rule, kind, newPerson, names).Ok? {
        MergeKeepsSpent(start, s, a, b, rule, kind, newPerson, names);
      }
    case Undo(k) =>
      if AcceptsUndo(s, k) {
        UndoKeepsSpent(start, s, k);
      }
    case LinkContact(_, rep, other, newPerson, names) =>
      if ApplyMerge(s, rep, other, "manual_link", "manual", newPerson, names).Ok? {
        MergeKeepsSpent(start, s, rep, other, "manual_link", "manual", newPerson, names);
      }
    case Propose(a, b, rule, blocked, newPerson, names) =>
      var queued := Appended(s, Candidate(a, b, rule, AutomaticStatus(s, a, b, blocked)));
      SameTablesKeepSpent(start, s, queued);
      MergeKeepsSpent(start, queued, a, b, rule, "automatic", newPerson, names);
    case Queue(_, _, _) => SameTablesKeepSpent(start, s, Step(s, e));
    case Confirm(c, newPerson, names) =>
      if c < |s.candidates| && Step(s, e) != s {
        var row := s.candidates[c];
        var claimed := s.(candidates := s.candidates[c := row.(status := Confirmed)]);
        SameTablesKeepSpent(start, s, claimed);
        MergeKeepsSpent(start, claimed, row.a, row.b, row.rule, "review", newPerson, names);
      }
    case AddHandle(_, rep, i, channel, handle, newPerson) =>
      AddedHandleKeepsSpent(start, s, rep, i, channel, handle, newPerson);
    case Reject(_) => SameTablesKeepSpent(start, s, Step(s, e));
    case FillName(_, _) => SameTablesKeepSpent(start, s, Step(s, e));
    case RenameContact(_, _) => SameTablesKeepSpent(start, s, Step(s, e));
  }

  lemma {:induction false} RunKeepsSpent(h: History, s: Store, f: Forest, run: seq<Event>) returns (g: Forest)
    requires Sound(s) && Tracks(h, s, f) && Spent(h.start, s)
    requires IsRun(s, run) && CarefulRun(h.start, s, run)
    ensures var t := Final(s, run); Sound(t) && Tracks(HistoryOf(h, s, run), t, g) && Spent(h.start, t)
    decreases |run|
  {
    hide Sound, Spent, TreeFits, Covered, HistoryFits;
    g := f;
    if run != [] {
      StepKeepsSound(s, run[0]);
      StepKeepsSpent(h.start, s, run[0]);
      g := StepTracks(h, s, f, run[0]);
      hide Tracks;
      g := RunKeepsSpent(HistoryAfter(h, s, run[0]), Step(s, run[0]), g, run[1..]);
    }
  }

  lemma UndoTakesFromSurvivor(h: History, s: Store, f: Forest, k: nat)
    requires Sound(s) && Tracks(h, s, f) && CarefulUndo(h.start, s, k)
    ensures s.log[k].moved <= s.Contact(PersonKey(s.log[k].survivor))
  {
    UndoneRowIsRoot(h, s, f, k);
    RootRow(h, s, f, k);
  }

  /**
    The exactness theorem. After any careful run, identities added by hand included, and for any row
    logged in it that moved somebody and that the gate lets through: every logged identity is at the
    survivor, so that the undo moves exactly those back, if and only if the row is unreversed and its
    survivor still stands. Neither condition is checked by undo_merge.
   */
  lemma AcceptedUndoIsExactIff(start: Store, run: seq<Event>, k: nat)
    requires Sound(start) && IsRun(start, run) && CarefulRun(start, start, run)
    requires var s := Final(start, run); |start.log| <= k && AcceptsUndo(s, k) && s.log[k].moved != {}
    ensures var s := Final(start, run);
      (s.log[k].moved <= s.Contact(PersonKey(s.log[k].survivor))) <==>
        (!s.log[k].reversed && s.IsRoot(s.log[k].survivor))
  {
    var f := ForestAtStart(start);
    var g := RunKeepsSpent(History(start, map[]), start, f, run);
    var s := Final(start, run);
    if !s.log[k].reversed && s.IsRoot(s.log[k].survivor) {
      UndoTakesFromSurvivor(HistoryOf(History(start, map[]), start, run), s, g, k);
    }
    if s.log[k].moved <= s.Contact(PersonKey(s.log[k].survivor)) {
      var i :| i in s.log[k].moved;
      assert i in s.identities && s.identities[i].personId == Some(s.log[k].survivor);
    }
  }
}
