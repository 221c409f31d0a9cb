/**
  What undoing a merge means for the candidate it came from: it waits for review again, as before, or
  is retired for good.
 */
module UndoneReviews {
  import opened Text
  import opened StoreModel
  import opened SafetyChecks
  import opened Runs
  import opened PersonForest
  import opened MergeInversion
  import opened Effects
  import opened ReviewQueue

  /** A merge just made can be undone, and everybody is where they were. */
  lemma NewestMergeUndone(s: Store, m: Store, a: IdentityId, b: IdentityId, rule: string, kind: string,
                          newPerson: PersonId, names: Names)
    requires Sound(s) && Callable(s, Call(a, b, rule, kind, newPerson, names))
    requires m.identities == Merged(s, a, b, rule, kind, newPerson, names).identities
    requires m.persons == Merged(s, a, b, rule, kind, newPerson, names).persons
    requires m.log == Merged(s, a, b, rule, kind, newPerson, names).log
    ensures AcceptsUndo(m, |s.log|) && Restores(s, Unmerged(m, |s.log|))
    ensures m.log[|s.log|].a == a && m.log[|s.log|].b == b
  {
    var c := Call(a, b, rule, kind, newPerson, names);
    assert Restores(Apply(s, c), m) by {
      hide Merged;
    }
    UnmergeRestores(s, c, m);
  }

  /** The candidate table after the undo of a row of the c-th candidate, the only one of its pair that was confirmed. */
  lemma OnlyOneReopens(row: MergeRow, before: seq<Candidate>, after: seq<Candidate>, c: nat)
    requires OnePerPair(before) && c < |before| && |after| == |before|
    requires before[c].a == row.a && before[c].b == row.b && before[c].status == Confirmed
    requires forall d :: 0 <= d < |before| ==> CandidateUndone(row, before[d], after[d])
    ensures after ==
      before[c := before[c].(status := if before[c].rule == "linkedin_same_channel_dedupe" then Retired else Pending)]
  {
    forall d | 0 <= d < |before| && d != c ensures after[d] == before[d] {
      DistinctPairs(before, c, d);
    }
  }

  lemma SamePairsOnePerPair(before: seq<Candidate>, after: seq<Candidate>)
    requires OnePerPair(before) && |after| == |before|
    requires forall c :: 0 <= c < |before| ==> after[c].a == before[c].a && after[c].b == before[c].b
    ensures OnePerPair(after)
  {
  }

  /** Whether a pending row of the queue can be confirmed. */
  predicate Confirmable(s: Store, c: nat) {
    && c < |s.candidates| && s.candidates[c].status == Pending && !IsBlank(s.candidates[c].rule)
    && s.candidates[c].a in s.identities && s.candidates[c].b in s.identities
  }

  /** Confirming a candidate and undoing the row that logged gives the candidate table with this row Reopened. */
  lemma ConfirmThenUndo(s: Store, c: nat, newPerson: PersonId, names: Names)
    requires Sound(s) && OnePerPair(s.candidates) && Confirmable(s, c) && newPerson !in s.persons
    ensures var t := ConfirmedByReview(s, c, newPerson, names);
      && AcceptsUndo(t, |s.log|) && Restores(s, Unmerged(t, |s.log|))
      && Unmerged(t, |s.log|).candidates == s.candidates[c := s.candidates[c].(
           status := if s.candidates[c].rule == "linkedin_same_channel_dedupe" then Retired else Pending)]
  {
    var row := s.candidates[c];
    var claimed := s.(candidates := s.candidates[c := row.(status := Confirmed)]);
    var t := ConfirmedByReview(s, c, newPerson, names);
    SameTablesMerge(s, claimed, row.a, row.b, row.rule, "review", newPerson, names);
    assert t == Merged(claimed, row.a, row.b, row.rule, "review", newPerson, names);
    hide Sound, Merged, Unmerged, Restores, ConfirmedByReview;
    NewestMergeUndone(s, t, row.a, row.b, row.rule, "review", newPerson, names);
    UnmergedIsUndo(t, |s.log|);
    SamePairsOnePerPair(s.candidates, t.candidates);
    OnlyOneReopens(t.log[|s.log|], t.candidates, Unmerged(t, |s.log|).candidates, c);
  }

  /**
    The round trip. Confirming a pending candidate of an active rule and undoing the merge restores the
    identities, the persons there were and the candidate table, and the candidate can be confirmed again.
   */
  lemma UndoneConfirmationReopens(s: Store, c: nat, newPerson: PersonId, names: Names)
    requires Sound(s) && OnePerPair(s.candidates) && Confirmable(s, c) && newPerson !in s.persons
    requires s.candidates[c].rule != "linkedin_same_channel_dedupe"
    ensures var t := ConfirmedByReview(s, c, newPerson, names);
      && AcceptsUndo(t, |s.log|)
      && var u := Unmerged(t, |s.log|);
         && u.identities == s.identities && u.candidates == s.candidates && Confirmable(u, c)
         && (forall p :: p in s.persons ==> p in u.persons && u.persons[p] == s.persons[p])
  {
    hide Sound, Unmerged, ConfirmedByReview;
    ConfirmThenUndo(s, c, newPerson, names);
  }

  /** A candidate of the retired rule never comes back: it is retired, whatever happens next. */
  lemma UndoneRetiredRuleStaysRetired(s: Store, c: nat, newPerson: PersonId, names: Names, more: seq<Event>)
    requires Sound(s) && OnePerPair(s.candidates) && Confirmable(s, c) && newPerson !in s.persons
    requires s.candidates[c].rule == "linkedin_same_channel_dedupe"
    requires IsRun(Unmerged(ConfirmedByReview(s, c, newPerson, names), |s.log|), more)
    ensures var u := Unmerged(ConfirmedByReview(s, c, newPerson, names), |s.log|);
      c < |Final(u, more).candidates| && Final(u, more).candidates[c].status == Retired
  {
    hide Sound, Unmerged, ConfirmedByReview;
    ConfirmThenUndo(s, c, newPerson, names);
    QueueLaws(Unmerged(ConfirmedByReview(s, c, newPerson, names), |s.log|), more);
  }

  /** An automatic merge that is undone leaves its candidate to a reviewer. */
  lemma UndoneProposalWaits(s: Store, a: IdentityId, b: IdentityId, rule: string, newPerson: PersonId, names: Names)
    requires Sound(s) && OnePerPair(s.candidates) && a in s.identities && b in s.identities && newPerson !in s.persons
    requires !IsBlank(rule) && rule != "linkedin_same_channel_dedupe"
    requires !HasCandidate(s.candidates, a, b) && AutomaticStatus(s, a, b, false) == Confirmed
    ensures var t := Proposed(s, a, b, rule, false, newPerson, names);
      && AcceptsUndo(t, |s.log|) && Restores(s, Unmerged(t, |s.log|))
      && Unmerged(t, |s.log|).candidates == s.candidates + [Candidate(a, b, rule, Pending)]
  {
    var queued := Appended(s, Candidate(a, b, rule, Confirmed));
    var t := Proposed(s, a, b, rule, false, newPerson, names);
    SameTablesMerge(s, queued, a, b, rule, "automatic", newPerson, names);
    assert t == Merged(queued, a, b, rule, "automatic", newPerson, names);
    AppendKeepsOnePerPair(s.candidates, Candidate(a, b, rule, Confirmed));
    hide Sound, Merged, Unmerged, Restores, Proposed, AutomaticStatus, HasCandidate, OnePerPair;
    NewestMergeUndone(s, t, a, b, rule, "automatic", newPerson, names);
    UnmergedIsUndo(t, |s.log|);
    OnlyOneReopens(t.log[|s.log|], t.candidates, Unmerged(t, |s.log|).candidates, |s.candidates|);
  }
}
