/**
  The life of a link candidate over runs that interleave automatic proposals, review requests,
  manual links and undos: what a status says about the store, which statuses are final, and how
  many merges a candidate's confirmations cause.
 */
module ReviewQueue {
  import opened StoreModel
  import opened SafetyChecks
  import opened Runs
  import opened PersonForest
  import opened MergeInversion
  import opened LinkClosure
  import opened TreeUpkeep
  import opened ClosureRuns

  // ---------------------------------------------------------------- confirmed means merged

  /** A confirmed pair was together at the start, or a row in force merged it, in the same order. */
  ghost predicate Backed(start: Store, s: Store, c: Candidate) {
    || (c.a in start.identities && c.b in start.identities && start.KeyOf(c.a) == start.KeyOf(c.b))
    || (exists k :: InForce(start, s.log, k) && s.log[k].a == c.a && s.log[k].b == c.b)
  }

  ghost predicate ConfirmedBacked(start: Store, s: Store) {
    forall c :: c in s.candidates && c.status == Confirmed ==>
      c.a in s.identities && c.b in s.identities && Backed(start, s, c)
  }

  lemma MergeKeepsBacked(start: Store, s: Store, a: IdentityId, b: IdentityId, rule: string, kind: string,
                         newPerson: PersonId, names: Names)
    requires a in s.identities && b in s.identities && |start.log| <= |s.log|
    requires forall c :: c in s.candidates && c.status == Confirmed ==>
      c.a in s.identities && c.b in s.identities && (Backed(start, s, c) || (c.a == a && c.b == b))
    ensures ConfirmedBacked(start, Merged(s, a, b, rule, kind, newPerson, names))
  {
    var t := Merged(s, a, b, rule, kind, newPerson, names);
    assert InForce(start, t.log, |s.log|);
    forall c | c in t.candidates && c.status == Confirmed ensures Backed(start, t, c) {
      if Backed(start, s, c)
         && !(c.a in start.identities && c.b in start.identities && start.KeyOf(c.a) == start.KeyOf(c.b)) {
        var k :| InForce(start, s.log, k) && s.log[k].a == c.a && s.log[k].b == c.b;
        assert InForce(start, t.log, k) && t.log[k] == s.log[k];
      }
    }
  }

  lemma UndoKeepsBacked(start: Store, s: Store, k: nat)
    requires ConfirmedBacked(start, s) && k < |s.log|
    ensures ConfirmedBacked(start, Unmerged(s, k))
  {
    var t := Unmerged(s, k);
    forall c | c in t.candidates && c.status == Confirmed
      ensures c.a in s.identities && c.b in s.identities && Backed(start, t, c)
    {
      var j :| 0 <= j < |t.candidates| && t.candidates[j] == c;
      assert c == Reopened(s.candidates[j], s.log[k]) == s.candidates[j];
      if !(c.a in start.identities && c.b in start.identities && start.KeyOf(c.a) == start.KeyOf(c.b)) {
        var m :| InForce(start, s.log, m) && s.log[m].a == c.a && s.log[m].b == c.b;
        assert InForce(start, t.log, m) && t.log[m] == s.log[m];
      }
    }
  }

  /** A step that merges nothing confirms nothing. */
  lemma QuietStepKeepsBacked(start: Store, s: Store, t: Store)
    requires ConfirmedBacked(start, s) && t.log == s.log && s.identities.Keys <= t.identities.Keys
    requires forall c :: c in t.candidates && c.status == Confirmed ==> c in s.candidates
    ensures ConfirmedBacked(start, t)
  {
    forall c | c in t.candidates && c.status == Confirmed ensures Backed(start, t, c) {
      assert Backed(start, s, c);
    }
  }

  lemma StepKeepsBacked(start: Store, s: Store, e: Event)
    requires ConfirmedBacked(start, s) && |start.log| <= |s.log| && Possible(s, e)
    ensures ConfirmedBacked(start, Step(s, e))
  {
    hide Merged, Unmerged, AutomaticStatus;
    match e
    case Merge(a, b, rule, kind, newPerson, names) =>
      if ApplyMerge(s, a, b, rule, kind, newPerson, names).Ok? {
        MergeKeepsBacked(start, s, a, b, rule, kind, newPerson, names);
      }
    case Undo(k) =>
      if AcceptsUndo(s, k) {
        UndoKeepsBacked(start, s, k);
      }
    case LinkContact(_, rep, other, newPerson, names) =>
      if ApplyMerge(s, rep, other, "manual_link", "manual", newPerson, names).Ok? {
        MergeKeepsBacked(start, s, rep, other, "manual_link", "manual", newPerson, names);
      }
    case Propose(a, b, rule, blocked, newPerson, names) =>
      var queued := Appended(s, Candidate(a, b, rule, AutomaticStatus(s, a, b, blocked)));
      assert forall c :: c in s.candidates && c.status == Confirmed ==> Backed(start, queued, c);
      MergeKeepsBacked(start, queued, a, b, rule, "automatic", newPerson, names);
    case Confirm(c, newPerson, names) =>
      if c < |s.candidates| && Step(s, e) != s {
        var row := s.candidates[c];
        var claimed := s.(candidates := s.candidates[c := row.(status := Confirmed)]);
        assert forall d :: d in s.candidates && d.status == Confirmed ==> Backed(start, claimed, d);
        MergeKeepsBacked(start, claimed, row.a, row.b, row.rule, "review", newPerson, names);
      }
    case _ => QuietStepKeepsBacked(start, s, Step(s, e));
  }

  lemma {:induction false} RunKeepsBacked(start: Store, s: Store, run: seq<Event>)
    requires ConfirmedBacked(start, s) && |start.log| <= |s.log| && IsRun(s, run)
    ensures ConfirmedBacked(start, Final(s, run))
    decreases |run|
  {
    if run != [] {
      StepKeepsBacked(start, s, run[0]);
      StepGrowsLog(s, run[0]);
      RunKeepsBacked(start, Step(s, run[0]), run[1..]);
    }
  }

  /** After any careful run, added handles included, the two identities of every confirmed candidate are one contact. */
  lemma ConfirmedPairsAreTogether(start: Store, run: seq<Event>)
    requires Sound(start) && IsRun(start, run) && CarefulRun(start, start, run)
    requires forall c :: c in start.candidates && c.status == Confirmed ==>
      c.a in start.identities && c.b in start.identities && start.KeyOf(c.a) == start.KeyOf(c.b)
    ensures forall c :: c in Final(start, run).candidates && c.status == Confirmed ==>
      && c.a in Final(start, run).identities && c.b in Final(start, run).identities
      && Final(start, run).KeyOf(c.a) == Final(start, run).KeyOf(c.b)
  {
    RunKeepsBacked(start, start, run);
    var f := ForestAtStart(start);
    var g := RunTracks(History(start, map[]), start, f, run);
    var (s, h) := (Final(start, run), HistoryOf(History(start, map[]), start, run));
    forall c | c in s.candidates && c.status == Confirmed ensures s.KeyOf(c.a) == s.KeyOf(c.b) {
      assert Linked(h, s.log, c.a, c.b) by {
        if !SameAtStart(start, c.a, c.b) {
          var k :| InForce(start, s.log, k) && s.log[k].a == c.a && s.log[k].b == c.b;
          assert c.a in Reach(h, s.log[k]) && c.b in Reach(h, s.log[k]);
        }
      }
      LinkedStaysInside(h, s, g, c.a, c.b);
    }
  }

  // ---------------------------------------------------------------- final statuses, one row per pair

  /** Candidates are only appended, keep their pair and rule, and never leave a final status. */
  ghost predicate QueueGrows(before: seq<Candidate>, after: seq<Candidate>) {
    |before| <= |after| && forall c :: 0 <= c < |before| ==>
      && after[c].(status := before[c].status) == before[c]
      && (before[c].status in {Rejected, Retired} ==> after[c] == before[c])
  }

  ghost predicate OnePerPair(candidates: seq<Candidate>) {
    forall c, d :: 0 <= c < d < |candidates| ==>
      {candidates[c].a, candidates[c].b} != {candidates[d].a, candidates[d].b}
  }

  lemma SamePair(a: IdentityId, b: IdentityId, x: IdentityId, y: IdentityId)
    ensures {a, b} == {x, y} <==> (a == x && b == y) || (a == y && b == x)
  {
    assert a in {a, b} && b in {a, b} && x in {x, y} && y in {x, y};
  }

  lemma AppendKeepsOnePerPair(candidates: seq<Candidate>, c: Candidate)
    requires OnePerPair(candidates) && !HasCandidate(candidates, c.a, c.b)
    ensures OnePerPair(candidates + [c])
  {
    forall d | 0 <= d < |candidates| ensures {candidates[d].a, candidates[d].b} != {c.a, c.b} {
      SamePair(candidates[d].a, candidates[d].b, c.a, c.b);
    }
  }

  lemma StepGrowsQueue(s: Store, e: Event)
    requires Possible(s, e)
    ensures QueueGrows(s.candidates, Step(s, e).candidates)
    ensures OnePerPair(s.candidates) ==> OnePerPair(Step(s, e).candidates)
  {
    if (e.Propose? || e.Queue?) && OnePerPair(s.candidates) && !HasCandidate(s.candidates, e.a, e.b) {
      AppendKeepsOnePerPair(s.candidates, Step(s, e).candidates[|s.candidates|]);
      assert Step(s, e).candidates == s.candidates + [Step(s, e).candidates[|s.candidates|]];
    }
  }

  /**
    Over any run: a rejected or retired candidate is never touched again, no candidate disappears
    or changes its pair, and no unordered pair ever has two candidates.
   */
  lemma {:induction false} QueueLaws(s: Store, run: seq<Event>)
    requires IsRun(s, run)
    ensures QueueGrows(s.candidates, Final(s, run).candidates)
    ensures OnePerPair(s.candidates) ==> OnePerPair(Final(s, run).candidates)
    decreases |run|
  {
    if run != [] {
      StepGrowsQueue(s, run[0]);
      QueueLaws(Step(s, run[0]), run[1..]);
      var before, mid, after := s.candidates, Step(s, run[0]).candidates, Final(s, run).candidates;
      forall c | 0 <= c < |before|
        ensures after[c].(status := before[c].status) == before[c]
        ensures before[c].status in {Rejected, Retired} ==> after[c] == before[c]
      {
        assert mid[c].(status := before[c].status) == before[c] && after[c].(status := mid[c].status) == mid[c];
      }
    }
  }

  // ---------------------------------------------------------------- one merge per confirmation

  predicate Claims(s: Store, e: Event, c: nat)
    requires Possible(s, e)
  {
    && c < |s.candidates| && s.candidates[c].status == Pending
    && c < |Step(s, e).candidates| && Step(s, e).candidates[c].status == Confirmed
  }

  /** How often candidate c goes from pending to confirmed in a run. */
  function Confirmations(s: Store, run: seq<Event>, c: nat): nat
    requires IsRun(s, run)
    decreases |run|
  {
    if run == [] then 0
    else (if Claims(s, run[0], c) then 1 else 0) + Confirmations(Step(s, run[0]), run[1..], c)
  }

  /** How many rows of the log are review merges of this pair, in this order. */
  function ReviewRows(log: seq<MergeRow>, a: IdentityId, b: IdentityId): nat {
    if log == [] then 0
    else
      var last := log[|log| - 1];
      ReviewRows(log[..|log| - 1], a, b) +
      (if last.decisionKind == "review" && last.a == a && last.b == b then 1 else 0)
  }

  lemma {:induction false} ReversalKeepsReviewRows(log: seq<MergeRow>, k: nat, a: IdentityId, b: IdentityId)
    requires k < |log|
    ensures ReviewRows(log[k := log[k].(reversed := true)], a, b) == ReviewRows(log, a, b)
    decreases |log|
  {
    var after := log[k := log[k].(reversed := true)];
    if k < |log| - 1 {
      assert after[..|log| - 1] == log[..|log| - 1][k := log[k].(reversed := true)];
      ReversalKeepsReviewRows(log[..|log| - 1], k, a, b);
    } else {
      assert after[..|log| - 1] == log[..|log| - 1];
    }
  }

  lemma OneMoreRow(log: seq<MergeRow>, row: MergeRow, a: IdentityId, b: IdentityId)
    ensures ReviewRows(log + [row], a, b) ==
      ReviewRows(log, a, b) + if row.decisionKind == "review" && row.a == a && row.b == b then 1 else 0
  {
    assert (log + [row])[..|log|] == log;
  }

  /** Only the review route attributes a merge to review. */
  predicate RouteIsHonest(e: Event) {
    e.Merge? ==> e.decisionKind != "review"
  }

  /** Only a confirm request that gets through takes a candidate from pending to confirmed. */
  lemma ClaimIsConfirm(s: Store, e: Event, c: nat)
    requires Possible(s, e) && c < |s.candidates|
    ensures Claims(s, e, c) <==> e.Confirm? && e.c == c && Step(s, e).log != s.log
  {
    hide AutomaticStatus, Joined, Moved, MergedPerson;
    if e.Undo? && AcceptsUndo(s, e.row) {
      assert Step(s, e).candidates[c] == Reopened(s.candidates[c], s.log[e.row]);
    }
  }

  /** Any other step than an undo logs nothing or one row, and only a confirm request logs a review. */
  lemma StepLogsOneRow(s: Store, e: Event)
    requires Possible(s, e) && RouteIsHonest(e) && !e.Undo?
    ensures var t := Step(s, e); t.log != s.log ==>
      && |t.log| == |s.log| + 1 && t.log == s.log + [t.log[|s.log|]]
      && (t.log[|s.log|].decisionKind == "review" <==> e.Confirm?)
      && (e.Confirm? ==> e.c < |s.candidates|)
      && (e.Confirm? ==> t.log[|s.log|].a == s.candidates[e.c].a && t.log[|s.log|].b == s.candidates[e.c].b)
  {
    hide AutomaticStatus, Joined, Moved, MergedPerson;
  }

  lemma StepCountsReview(s: Store, e: Event, c: nat)
    requires Possible(s, e) && RouteIsHonest(e) && OnePerPair(s.candidates) && c < |s.candidates|
    ensures var (a, b) := (s.candidates[c].a, s.candidates[c].b);
      ReviewRows(Step(s, e).log, a, b) == ReviewRows(s.log, a, b) + if Claims(s, e, c) then 1 else 0
  {
    hide OnePerPair, Claims, Merged;
    var (a, b) := (s.candidates[c].a, s.candidates[c].b);
    ClaimIsConfirm(s, e, c);
    if e.Undo? {
      if AcceptsUndo(s, e.row) {
        ReversalKeepsReviewRows(s.log, e.row, a, b);
      }
    } else {
      hide Step;
      StepLogsOneRow(s, e);
      if Step(s, e).log != s.log {
        OneMoreRow(s.log, Step(s, e).log[|s.log|], a, b);
        if e.Confirm? {
          DistinctPairs(s.candidates, c, e.c);
        }
      }
    }
  }

  lemma DistinctPairs(candidates: seq<Candidate>, c: nat, d: nat)
    requires OnePerPair(candidates) && c < |candidates| && d < |candidates|
    ensures candidates[c].a == candidates[d].a && candidates[c].b == candidates[d].b ==> c == d
  {
    assert c < d || d < c || c == d;
  }

  /**
    However confirm requests race and whatever is interleaved with them, undos included: the review
    merges logged for a candidate's pair are as many as its moves from pending to confirmed.
   */
  lemma {:induction false} OneMergePerConfirmation(s: Store, run: seq<Event>, c: nat)
    requires IsRun(s, run) && OnePerPair(s.candidates) && c < |s.candidates|
    requires forall e :: e in run ==> RouteIsHonest(e)
    ensures ReviewRows(Final(s, run).log, s.candidates[c].a, s.candidates[c].b) ==
      ReviewRows(s.log, s.candidates[c].a, s.candidates[c].b) + Confirmations(s, run, c)
    decreases |run|
  {
    if run != [] {
      StepCountsReview(s, run[0], c);
      StepGrowsQueue(s, run[0]);
      OneMergePerConfirmation(Step(s, run[0]), run[1..], c);
    }
  }
}
