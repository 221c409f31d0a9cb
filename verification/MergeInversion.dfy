/**
  How undo_merge inverts apply_merge: what one undo gives back, what undoing a whole run newest
  first gives back, and exactly when the gate lets that happen.
 */
module MergeInversion {
  import opened Wrappers
  import opened StoreModel
  import opened Runs
  import opened PersonForest

  // ---------------------------------------------------------------- runs of merges

  /** One apply_merge call with the database's and naming's answers. */
  datatype Call = Call(a: IdentityId, b: IdentityId, rule: string, kind: string, newPerson: PersonId, names: Names)

  predicate Callable(s: Store, c: Call) {
    c.a in s.identities && c.b in s.identities && c.newPerson !in s.persons && ValidProvenance(c.rule, c.kind)
  }

  function Apply(s: Store, c: Call): Store
    requires Callable(s, c)
  {
    Merged(s, c.a, c.b, c.rule, c.kind, c.newPerson, c.names)
  }

  predicate AllCallable(s: Store, calls: seq<Call>)
    decreases |calls|
  {
    calls != [] ==> Callable(s, calls[0]) && AllCallable(Apply(s, calls[0]), calls[1..])
  }

  function ApplyAll(s: Store, calls: seq<Call>): (t: Store)
    requires AllCallable(s, calls)
    ensures |t.log| == |s.log| + |calls|
    decreases |calls|
  {
    if calls == [] then s else ApplyAll(Apply(s, calls[0]), calls[1..])
  }

  /** The inverse step of every row from the newest down to row n, without the gate. */
  function Unwound(s: Store, n: nat, rows: nat): Store
    requires n + rows <= |s.log|
    decreases rows
  {
    if rows == 0 then s else Unwound(Unmerged(s, n + rows - 1), n, rows - 1)
  }

  /** The same through undo_merge: None as soon as the gate refuses a row. */
  function UndoneNewestFirst(s: Store, n: nat, rows: nat): Option<Store>
    requires n + rows <= |s.log|
    decreases rows
  {
    if rows == 0 then Some(s)
    else match UndoMerge(s, n + rows - 1)
      case Err(_) => None
      case Ok(t) => UndoneNewestFirst(t, n, rows - 1)
  }

  // ---------------------------------------------------------------- exact inversion

  /**
    t has s's identities, s's persons with their names and merged_into, and s's log as its start;
    what t has more of s never held: rows of merge_log and empty root persons no identity points at.
   */
  ghost predicate Restores(s: Store, t: Store) {
    && t.identities == s.identities
    && s.persons.Keys <= t.persons.Keys
    && (forall p :: p in s.persons ==> t.persons[p] == s.persons[p])
    && (forall p :: p in t.persons && p !in s.persons ==> t.persons[p] == EMPTY_PERSON)
    && |s.log| <= |t.log| && t.log[..|s.log|] == s.log
  }

  lemma UnmergeRestoresIdentities(s: Store, c: Call)
    requires Sound(s) && Callable(s, c)
    ensures Unmerged(Apply(s, c), |s.log|).identities == s.identities
  {
    var m := Apply(s, c);
    var t := Unmerged(m, |s.log|);
    assert m.log[|s.log|] == NewRow(s, c.a, c.b, c.rule, c.kind, c.newPerson);
    forall i | i in s.identities ensures t.identities[i] == s.identities[i] {
      assert s.KeyOf(i) == s.KeyOf(c.a) || s.KeyOf(i) == s.KeyOf(c.b) || i !in Joined(s, c.a, c.b);
    }
    assert t.identities.Keys == s.identities.Keys;
  }

  /** Undoing the merge just applied, seen from any store that agrees with its result. */
  lemma UnmergeRestores(s: Store, c: Call, m: Store)
    requires Sound(s) && Callable(s, c)
    requires Restores(Apply(s, c), m)
    ensures Restores(s, Unmerged(m, |s.log|))
  {
    var applied := Apply(s, c);
    var row := NewRow(s, c.a, c.b, c.rule, c.kind, c.newPerson);
    var t := Unmerged(m, |s.log|);
    assert m.log[|s.log|] == m.log[..|applied.log|][|s.log|] == row;
    UnmergeRestoresIdentities(s, c);
    assert t.identities == Unmerged(applied, |s.log|).identities;
    forall p | p in s.persons ensures t.persons[p] == s.persons[p] {
      assert m.persons[p] == applied.persons[p] == MergedPerson(s, c.a, c.b, c.newPerson, c.names, p);
    }
    forall p | p in t.persons && p !in s.persons ensures t.persons[p] == EMPTY_PERSON {
      if p in applied.persons {
        assert p == row.survivor == c.newPerson;
      } else {
        assert m.persons[p] == EMPTY_PERSON;
      }
    }
    assert t.log[..|s.log|] == m.log[..|applied.log|][..|s.log|] == s.log;
  }

  lemma UnwoundKeepsOlderRows(s: Store, n: nat, rows: nat)
    requires 0 < rows && n + rows <= |s.log|
    ensures |Unwound(s, n + 1, rows - 1).log| == |s.log|
    ensures Unwound(s, n, rows) == Unmerged(Unwound(s, n + 1, rows - 1), n)
    decreases rows
  {
    if rows > 1 {
      UnwoundKeepsOlderRows(Unmerged(s, n + rows - 1), n, rows - 1);
    }
  }

  lemma UnwindOneMore(s: Store, c: Call, t: Store, rows: nat)
    requires Sound(s) && Callable(s, c) && |s.log| + 1 + rows == |t.log|
    requires Restores(Apply(s, c), Unwound(t, |s.log| + 1, rows))
    ensures Restores(s, Unwound(t, |s.log|, rows + 1))
  {
    hide Restores, Sound, Apply, Callable;
    UnwoundKeepsOlderRows(t, |s.log|, rows + 1);
    UnmergeRestores(s, c, Unwound(t, |s.log| + 1, rows));
  }

  lemma RestoresItself(s: Store)
    ensures Restores(s, s)
  {
  }

  /**
    The inversion theorem: after any sequence of merges, taking back the rows newest first restores
    every identity.person_id, every merged_into and the names of every person that was there.
   */
  lemma {:induction false} UnwindingRestores(s: Store, calls: seq<Call>)
    requires Sound(s) && AllCallable(s, calls)
    ensures Restores(s, Unwound(ApplyAll(s, calls), |s.log|, |calls|))
    decreases |calls|
  {
    hide Restores, Sound, Merged, Unmerged, ValidProvenance;
    if calls == [] {
      RestoresItself(s);
    } else {
      var c := calls[0];
      MergeKeepsSound(s, c.a, c.b, c.rule, c.kind, c.newPerson, c.names);
      UnwindingRestores(Apply(s, c), calls[1..]);
      UnwindOneMore(s, c, ApplyAll(s, calls), |calls| - 1);
    }
  }

  // ---------------------------------------------------------------- the gate

  ghost predicate DistinctSurvivors(log: seq<MergeRow>, n: nat, rows: nat)
    requires n + rows <= |log|
  {
    forall k, m :: n <= k < n + rows && k < m < |log| ==> log[k].survivor != log[m].survivor
  }

  lemma {:induction false} NewestFirstIsUnwinding(s: Store, n: nat, rows: nat)
    requires n + rows <= |s.log|
    ensures UndoneNewestFirst(s, n, rows).Some? <==> DistinctSurvivors(s.log, n, rows)
    ensures UndoneNewestFirst(s, n, rows).Some? ==> UndoneNewestFirst(s, n, rows).value == Unwound(s, n, rows)
    decreases rows
  {
    if rows > 0 {
      var top := n + rows - 1;
      if AcceptsUndo(s, top) {
        var t := Unmerged(s, top);
        NewestFirstIsUnwinding(t, n, rows - 1);
        assert forall k :: 0 <= k < |s.log| ==> t.log[k].survivor == s.log[k].survivor;
        assert DistinctSurvivors(t.log, n, rows - 1) <==> DistinctSurvivors(s.log, n, rows - 1);
      }
    }
  }

  /**
    Undoing a run of merges newest first through the gate succeeds if and only if no two of its
    merges have the same survivor, and it then restores the store. The design document expects
    that order to work always; reversed rows still count in the gate, so it does not.
   */
  lemma NewestFirstUndoIff(s: Store, calls: seq<Call>)
    requires Sound(s) && AllCallable(s, calls)
    ensures var t := ApplyAll(s, calls);
      && (UndoneNewestFirst(t, |s.log|, |calls|).Some? <==> DistinctSurvivors(t.log, |s.log|, |calls|))
      && (UndoneNewestFirst(t, |s.log|, |calls|).Some? ==> Restores(s, UndoneNewestFirst(t, |s.log|, |calls|).value))
  {
    UnwindingRestores(s, calls);
    NewestFirstIsUnwinding(ApplyAll(s, calls), |s.log|, |calls|);
  }

  /** The log only grows and never forgets a survivor. */
  ghost predicate LogGrows(before: seq<MergeRow>, after: seq<MergeRow>) {
    |before| <= |after| && forall k :: 0 <= k < |before| ==>
      after[k] == before[k] || after[k] == before[k].(reversed := true)
  }

  lemma StepGrowsLog(s: Store, e: Event)
    requires Possible(s, e)
    ensures LogGrows(s.log, Step(s, e).log)
  {
  }

  lemma {:induction false} RunGrowsLog(s: Store, run: seq<Event>)
    requires IsRun(s, run)
    ensures LogGrows(s.log, Final(s, run).log)
    decreases |run|
  {
    if run != [] {
      StepGrowsLog(s, run[0]);
      RunGrowsLog(Step(s, run[0]), run[1..]);
      var mid, last := Step(s, run[0]).log, Final(s, run).log;
      forall k | 0 <= k < |s.log| ensures last[k] == s.log[k] || last[k] == s.log[k].(reversed := true) {
        assert mid[k] == s.log[k] || mid[k] == s.log[k].(reversed := true);
      }
    }
  }

  lemma GateRemembers(before: seq<MergeRow>, after: seq<MergeRow>, k: nat)
    requires LogGrows(before, after) && k < |before| && BuiltUpon(before, k)
    ensures BuiltUpon(after, k)
  {
    var m :| k < m < |before| && before[m].survivor == before[k].survivor;
    assert after[m].survivor == after[k].survivor;
  }

  /** A row the gate refuses stays refused in every continuation, undos of the later row included. */
  lemma RefusedForever(s: Store, run: seq<Event>, k: nat)
    requires IsRun(s, run)
    requires UndoMerge(s, k) == Err(LaterMerge)
    ensures UndoMerge(Final(s, run), k) == Err(LaterMerge)
  {
    RunGrowsLog(s, run);
    GateRemembers(s.log, Final(s, run).log, k);
  }
}
