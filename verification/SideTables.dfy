/**
  The tables keyed on a contact key (ai_brief, ai_brief_status, contact_hidden) under merging: what a
  merge relocates, and what every contact's rows are after any run of merges.
 */
module SideTables {
  import opened Wrappers
  import opened StoreModel
  import opened Runs
  import opened PersonForest
  import opened MergeInversion
  import opened TreeUpkeep
  import opened GraftedTrees
  import opened SplitTrees

  /** A row with the time that decides between two of them: generated_at or attempted_at. */
  datatype Stamped<T> = Stamped(content: T, at: int)

  type Table<T> = map<ContactKey, Stamped<T>>

  // ---------------------------------------------------------------- one merge

  /** insert ... on conflict do update where excluded is newer, then delete. */
  function Relocate<T>(table: Table<T>, stale: ContactKey, target: ContactKey): Table<T> {
    if stale !in table then table
    else if target !in table || table[stale].at > table[target].at then
      table[target := table[stale]] - {stale}
    else table - {stale}
  }

  function RelocateAll<T>(table: Table<T>, order: seq<ContactKey>, target: ContactKey): Table<T>
    decreases |order|
  {
    if order == [] then table else RelocateAll(Relocate(table, order[0], target), order[1..], target)
  }

  /** insert ... on conflict do nothing, then delete. */
  function RelocateHidden(hidden: set<ContactKey>, stale: ContactKey, target: ContactKey): set<ContactKey> {
    (if stale in hidden then hidden + {target} else hidden) - {stale}
  }

  function RelocateAllHidden(hidden: set<ContactKey>, order: seq<ContactKey>, target: ContactKey): set<ContactKey>
    decreases |order|
  {
    if order == [] then hidden else RelocateAllHidden(RelocateHidden(hidden, order[0], target), order[1..], target)
  }

  /** row is one of the rows under `keys`, and none of them is newer. */
  ghost predicate IsNewest<T>(table: Table<T>, keys: set<ContactKey>, row: Stamped<T>) {
    && (exists k :: k in keys && k in table && table[k] == row)
    && (forall k :: k in keys && k in table ==> table[k].at <= row.at)
  }

  ghost predicate Enumerates(order: seq<ContactKey>, keys: set<ContactKey>) {
    forall k :: k in order <==> k in keys
  }

  /** What relocating a set of stale keys must achieve, whatever the order. */
  ghost predicate Relocated<T>(before: Table<T>, stale: set<ContactKey>, target: ContactKey, after: Table<T>) {
    && (forall k :: k in stale ==> k !in after)
    && (forall k :: k !in stale && k != target ==>
          (k in after <==> k in before) && (k in before ==> after[k] == before[k]))
    && (target in after <==> exists k :: k in stale + {target} && k in before)
    && (target in after ==> IsNewest(before, stale + {target}, after[target]))
  }

  /** Relocation keeps the newest row under the survivor and leaves nothing under a stale key. */
  lemma {:induction false} RelocationKeepsNewest<T>(table: Table<T>, order: seq<ContactKey>, stale: set<ContactKey>,
                                                    target: ContactKey)
    requires Enumerates(order, stale) && target !in stale
    ensures Relocated(table, stale, target, RelocateAll(table, order, target))
    decreases |order|
  {
    if order == [] {
      assert target in table ==> target in stale + {target};
    } else {
      var next := Relocate(table, order[0], target);
      var rest := set k | k in order[1..];
      assert forall k :: k in order <==> k == order[0] || k in order[1..];
      RelocationKeepsNewest(next, order[1..], rest, target);
      OneRelocation(table, order[0], rest, target, RelocateAll(next, order[1..], target));
      assert stale == {order[0]} + rest;
    }
  }

  lemma OneRelocation<T>(table: Table<T>, key: ContactKey, rest: set<ContactKey>, target: ContactKey, after: Table<T>)
    requires key != target && target !in rest
    requires Relocated(Relocate(table, key, target), rest, target, after)
    ensures Relocated(table, {key} + rest, target, after)
  {
    var next := Relocate(table, key, target);
    var (narrow, wide) := (rest + {target}, {key} + rest + {target});
    assert forall k :: k in wide <==> k == key || k in narrow;
    assert forall k :: k in narrow && k != target && k in next ==> k in table && table[k] == next[k];
    assert key in table ==> target in next;
    assert target in table ==> target in next;
    assert target in next ==> key in table || target in table;
    if target in after {
      assert IsNewest(next, narrow, after[target]);
      var k :| k in narrow && k in next && next[k] == after[target];
      assert (k in table && table[k] == after[target]) || (key in table && table[key] == after[target]);
    }
  }

  /** Rows of different times under the keys: only then is there one newest row. */
  ghost predicate DistinctTimes<T>(table: Table<T>, keys: set<ContactKey>) {
    forall k, m :: k in keys && m in keys && k in table && m in table && k != m ==> table[k].at != table[m].at
  }

  /** The result does not depend on the order in which the stale keys are visited, up to equal times. */
  lemma VisitingOrderIsIrrelevant<T>(table: Table<T>, order: seq<ContactKey>, other: seq<ContactKey>,
                                     stale: set<ContactKey>, target: ContactKey)
    requires Enumerates(order, stale) && Enumerates(other, stale) && target !in stale
    requires DistinctTimes(table, stale + {target})
    ensures RelocateAll(table, order, target) == RelocateAll(table, other, target)
  {
    RelocationKeepsNewest(table, order, stale, target);
    RelocationKeepsNewest(table, other, stale, target);
    RelocatedAlike(table, stale, target, RelocateAll(table, order, target), RelocateAll(table, other, target));
  }

  lemma RelocatedAlike<T>(table: Table<T>, stale: set<ContactKey>, target: ContactKey, x: Table<T>, y: Table<T>)
    requires Relocated(table, stale, target, x) && Relocated(table, stale, target, y)
    requires DistinctTimes(table, stale + {target})
    ensures x == y
  {
    if target in x {
      OneNewest(table, stale + {target}, x[target], y[target]);
    }
    hide IsNewest, DistinctTimes;
    assert x.Keys == y.Keys;
  }

  lemma OneNewest<T>(table: Table<T>, keys: set<ContactKey>, x: Stamped<T>, y: Stamped<T>)
    requires DistinctTimes(table, keys) && IsNewest(table, keys, x) && IsNewest(table, keys, y)
    ensures x == y
  {
  }

  lemma {:induction false} HiddenMovesLikeRows<T>(table: Table<T>, order: seq<ContactKey>, target: ContactKey)
    requires target !in order
    ensures RelocateAll(table, order, target).Keys == RelocateAllHidden(table.Keys, order, target)
    decreases |order|
  {
    if order != [] {
      assert Relocate(table, order[0], target).Keys == RelocateHidden(table.Keys, order[0], target);
      HiddenMovesLikeRows(Relocate(table, order[0], target), order[1..], target);
    }
  }

  // ---------------------------------------------------------------- runs of merges

  /** {pre_merge_key_a, pre_merge_key_b} - {person_id} */
  function StaleKeys(s: Store, a: IdentityId, b: IdentityId, newPerson: PersonId): set<ContactKey>
    requires a in s.identities && b in s.identities
  {
    {s.KeyOf(a), s.KeyOf(b)} - {PersonKey(Survivor(s, a, b, newPerson))}
  }

  ghost predicate AllVisited(s: Store, calls: seq<Call>, orders: seq<seq<ContactKey>>)
    requires AllCallable(s, calls)
    decreases |calls|
  {
    && |orders| == |calls|
    && (calls != [] ==> Enumerates(orders[0], StaleKeys(s, calls[0].a, calls[0].b, calls[0].newPerson)))
    && (calls != [] ==> AllVisited(Apply(s, calls[0]), calls[1..], orders[1..]))
  }

  function AfterMerges<T>(s: Store, calls: seq<Call>, orders: seq<seq<ContactKey>>, table: Table<T>): Table<T>
    requires AllCallable(s, calls) && |orders| == |calls|
    decreases |calls|
  {
    if calls == [] then table
    else
      var c := calls[0];
      AfterMerges(Apply(s, c), calls[1..], orders[1..],
                  RelocateAll(table, orders[0], PersonKey(Survivor(s, c.a, c.b, c.newPerson))))
  }

  ghost predicate NoOrphan<T>(s: Store, table: Table<T>) {
    forall k :: k in table ==> s.Contact(k) != {}
  }

  /** The keys a contact had at the start: those of the identities it shows now. */
  function Origins(start: Store, s: Store, key: ContactKey): set<ContactKey> {
    set i | i in start.identities && i in s.identities && s.KeyOf(i) == key :: start.KeyOf(i)
  }

  /** No row is orphaned, and every contact has the newest of the rows its parts started with. */
  ghost predicate Inherits<T>(start: Store, first: Table<T>, s: Store, table: Table<T>) {
    && NoOrphan(s, table)
    && forall key :: s.Contact(key) != {} ==>
         && (key in table <==> exists k :: k in Origins(start, s, key) && k in first)
         && (key in table ==> IsNewest(first, Origins(start, s, key), table[key]))
  }

  lemma OriginsUnite(start: Store, s: Store, c: Call, key: ContactKey)
    requires Sound(s) && Callable(s, c)
    ensures var (t, survivor) := (Apply(s, c), PersonKey(Survivor(s, c.a, c.b, c.newPerson)));
      && Origins(start, t, survivor) == Origins(start, s, s.KeyOf(c.a)) + Origins(start, s, s.KeyOf(c.b))
      && (key != survivor && t.Contact(key) != {} ==>
           t.Contact(key) == s.Contact(key) && Origins(start, t, key) == Origins(start, s, key)
           && key != s.KeyOf(c.a) && key != s.KeyOf(c.b))
  {
    var (t, survivor) := (Apply(s, c), PersonKey(Survivor(s, c.a, c.b, c.newPerson)));
    NewSurvivorHoldsNobody(s, c.a, c.b, c.newPerson);
    forall i | i in s.identities
      ensures t.KeyOf(i) == (if s.KeyOf(i) == s.KeyOf(c.a) || s.KeyOf(i) == s.KeyOf(c.b) then survivor else s.KeyOf(i))
      ensures s.KeyOf(i) == survivor ==> survivor == s.KeyOf(c.a) || survivor == s.KeyOf(c.b)
    {
      MergedKey(s, c.a, c.b, c.rule, c.kind, c.newPerson, c.names, i);
      assert i in s.Contact(s.KeyOf(i));
    }
  }

  /** The newest of two groups' newest rows is the newest of both groups. */
  lemma NewestOfNewest<T>(first: Table<T>, table: Table<T>, ka: ContactKey, kb: ContactKey,
                          left: set<ContactKey>, right: set<ContactKey>, keys: set<ContactKey>, row: Stamped<T>)
    requires ka in table <==> exists k :: k in left && k in first
    requires kb in table <==> exists k :: k in right && k in first
    requires ka in table ==> IsNewest(first, left, table[ka])
    requires kb in table ==> IsNewest(first, right, table[kb])
    requires ka in keys && kb in keys && forall k :: k in keys && k in table ==> k == ka || k == kb
    requires IsNewest(table, keys, row)
    ensures IsNewest(first, left + right, row)
  {
    var k :| k in keys && k in table && table[k] == row;
    var side := if k == ka then left else right;
    var origin :| origin in side && origin in first && first[origin] == row;
    assert origin in left + right;
    forall m | m in left + right && m in first ensures first[m].at <= row.at {
      if m in left {
        assert ka in table && first[m].at <= table[ka].at <= row.at;
      } else {
        assert kb in table && first[m].at <= table[kb].at <= row.at;
      }
    }
  }

  lemma SurvivorInherits<T>(start: Store, first: Table<T>, s: Store, c: Call, table: Table<T>, after: Table<T>)
    requires Sound(s) && Callable(s, c) && Inherits(start, first, s, table)
    requires Relocated(table, StaleKeys(s, c.a, c.b, c.newPerson), PersonKey(Survivor(s, c.a, c.b, c.newPerson)), after)
    ensures var (t, survivor) := (Apply(s, c), PersonKey(Survivor(s, c.a, c.b, c.newPerson)));
      && (survivor in after <==> exists k :: k in Origins(start, t, survivor) && k in first)
      && (survivor in after ==> IsNewest(first, Origins(start, t, survivor), after[survivor]))
  {
    hide Sound, Apply, Origins, IsNewest;
    var (t, survivor) := (Apply(s, c), PersonKey(Survivor(s, c.a, c.b, c.newPerson)));
    var (ka, kb) := (s.KeyOf(c.a), s.KeyOf(c.b));
    assert c.a in s.Contact(ka) && c.b in s.Contact(kb);
    OriginsUnite(start, s, c, survivor);
    KeysOfMerge(s, c, table);
    if survivor in after {
      NewestOfNewest(first, table, ka, kb, Origins(start, s, ka), Origins(start, s, kb),
                     StaleKeys(s, c.a, c.b, c.newPerson) + {survivor}, after[survivor]);
    }
  }

  /** Of the keys a merge visits, only the two contacts' own can hold a row. */
  lemma KeysOfMerge<T>(s: Store, c: Call, table: Table<T>)
    requires Sound(s) && Callable(s, c) && NoOrphan(s, table)
    ensures var keys := StaleKeys(s, c.a, c.b, c.newPerson) + {PersonKey(Survivor(s, c.a, c.b, c.newPerson))};
      && s.KeyOf(c.a) in keys && s.KeyOf(c.b) in keys
      && forall k :: k in keys && k in table ==> k == s.KeyOf(c.a) || k == s.KeyOf(c.b)
  {
    NewSurvivorHoldsNobody(s, c.a, c.b, c.newPerson);
  }

  lemma MergeInherits<T>(start: Store, first: Table<T>, s: Store, c: Call, table: Table<T>, after: Table<T>)
    requires Sound(s) && Callable(s, c) && Inherits(start, first, s, table)
    requires Relocated(table, StaleKeys(s, c.a, c.b, c.newPerson), PersonKey(Survivor(s, c.a, c.b, c.newPerson)), after)
    ensures Inherits(start, first, Apply(s, c), after)
  {
    hide Sound, Origins, IsNewest, Relocated;
    var (t, survivor) := (Apply(s, c), PersonKey(Survivor(s, c.a, c.b, c.newPerson)));
    SurvivorInherits(start, first, s, c, table, after);
    MergeOrphansNothing(s, c, table, after);
    forall key | t.Contact(key) != {} && key != survivor
      ensures key in after <==> exists k :: k in Origins(start, t, key) && k in first
      ensures key in after ==> IsNewest(first, Origins(start, t, key), after[key])
    {
      OriginsUnite(start, s, c, key);
      OtherRowsStay(s, c, table, after, key);
    }
  }

  lemma OtherRowsStay<T>(s: Store, c: Call, table: Table<T>, after: Table<T>, key: ContactKey)
    requires Callable(s, c)
    requires Relocated(table, StaleKeys(s, c.a, c.b, c.newPerson), PersonKey(Survivor(s, c.a, c.b, c.newPerson)), after)
    requires key != s.KeyOf(c.a) && key != s.KeyOf(c.b) && key != PersonKey(Survivor(s, c.a, c.b, c.newPerson))
    ensures key in after <==> key in table
    ensures key in table ==> after[key] == table[key]
  {
  }

  lemma MergeOrphansNothing<T>(s: Store, c: Call, table: Table<T>, after: Table<T>)
    requires Sound(s) && Callable(s, c) && NoOrphan(s, table)
    requires Relocated(table, StaleKeys(s, c.a, c.b, c.newPerson), PersonKey(Survivor(s, c.a, c.b, c.newPerson)), after)
    ensures NoOrphan(Apply(s, c), after)
  {
    MergedContacts(s, c.a, c.b, c.rule, c.kind, c.newPerson, c.names);
    assert c.a in s.Contact(s.KeyOf(c.a));
  }

  lemma {:induction false} MergesInherit<T>(start: Store, first: Table<T>, s: Store, table: Table<T>,
                                            calls: seq<Call>, orders: seq<seq<ContactKey>>)
    requires Sound(s) && AllCallable(s, calls) && AllVisited(s, calls, orders) && Inherits(start, first, s, table)
    ensures Inherits(start, first, ApplyAll(s, calls), AfterMerges(s, calls, orders, table))
    decreases |calls|
  {
    hide Sound, Inherits, Apply;
    if calls != [] {
      var c := calls[0];
      var target := PersonKey(Survivor(s, c.a, c.b, c.newPerson));
      MergeIsSound(s, c);
      RelocationKeepsNewest(table, orders[0], StaleKeys(s, c.a, c.b, c.newPerson), target);
      var after := RelocateAll(table, orders[0], target);
      MergeInherits(start, first, s, c, table, after);
      MergesInherit(start, first, Apply(s, c), after, calls[1..], orders[1..]);
    }
  }

  lemma MergeIsSound(s: Store, c: Call)
    requires Sound(s) && Callable(s, c)
    ensures Sound(Apply(s, c))
  {
    hide Sound;
    MergeKeepsSound(s, c.a, c.b, c.rule, c.kind, c.newPerson, c.names);
  }

  lemma StartInherits<T>(start: Store, table: Table<T>)
    requires NoOrphan(start, table)
    ensures Inherits(start, table, start, table)
  {
    forall key | start.Contact(key) != {} ensures Origins(start, start, key) == {key} {
      var i :| i in start.Contact(key);
    }
    assert forall key :: key in table ==> key in {key};
  }

  /**
    Over any run of merges, in any visiting order: if every row was under a live contact's key at the
    start, every row still is, and each contact's row is the newest of all rows that the contacts now
    joined in it had at the start. It holds for briefs and for latest attempts alike.
   */
  lemma MergedContactsInheritNewest<T>(start: Store, table: Table<T>, calls: seq<Call>, orders: seq<seq<ContactKey>>)
    requires Sound(start) && AllCallable(start, calls) && AllVisited(start, calls, orders) && NoOrphan(start, table)
    ensures Inherits(start, table, ApplyAll(start, calls), AfterMerges(start, calls, orders, table))
  {
    StartInherits(start, table);
    hide Sound, Inherits, NoOrphan, Apply, AllVisited;
    MergesInherit(start, table, start, table, calls, orders);
  }

  // ---------------------------------------------------------------- what does orphan a row

  /** Everyone shown under the key was moved by the row, and undoing the row sends them somewhere else. */
  ghost predicate Deserted(s: Store, row: MergeRow, key: ContactKey) {
    && s.Contact(key) <= row.moved
    && if row.absorbed.Some? then key != PersonKey(row.absorbed.value) else key.PersonKey?
  }

  lemma DesertedIff(s: Store, k: nat, key: ContactKey)
    requires k < |s.log| && s.log[k].moved <= s.identities.Keys && s.Contact(key) != {}
    ensures Unmerged(s, k).Contact(key) == {} <==> Deserted(s, s.log[k], key)
  {
    UndoneContact(s, k, key);
    hide Unmerged;
    var (row, left) := (s.log[k], s.Contact(key) - s.log[k].moved);
    assert left <= Unmerged(s, k).Contact(key);
    if s.Contact(key) <= row.moved {
      assert left == {};
    } else {
      var i :| i in s.Contact(key) && i !in row.moved;
      assert i in left;
    }
  }

  /**
    undo_merge relocates nothing. Whatever happened since the merge, undoing its row leaves a side-table
    row under a dead key exactly when it deserts a key that has one.
   */
  lemma UndoOrphansIff<T>(s: Store, k: nat, table: Table<T>)
    requires Sound(s) && NoOrphan(s, table) && AcceptsUndo(s, k)
    ensures !NoOrphan(Unmerged(s, k), table) <==> exists key :: key in table && Deserted(s, s.log[k], key)
  {
    assert RowReferences(s, s.log[k]);
    hide Unmerged, Sound, Deserted;
    forall key | key in table ensures Unmerged(s, k).Contact(key) == {} <==> Deserted(s, s.log[k], key) {
      DesertedIff(s, k, key);
    }
  }

  /**
    While the row's identities are all still at its survivor, that is: when the survivor has a row and
    loses its last identity.
   */
  lemma IntactUndoOrphansIff<T>(s: Store, k: nat, table: Table<T>)
    requires Sound(s) && NoOrphan(s, table) && AcceptsUndo(s, k)
    requires s.log[k].moved <= s.Contact(PersonKey(s.log[k].survivor))
    ensures !NoOrphan(Unmerged(s, k), table) <==>
      PersonKey(s.log[k].survivor) in table && s.log[k].moved == s.Contact(PersonKey(s.log[k].survivor))
  {
    UndoOrphansIff(s, k, table);
    assert RowReferences(s, s.log[k]);
    hide Unmerged, NoOrphan;
    var (row, survivor) := (s.log[k], PersonKey(s.log[k].survivor));
    forall key | key in table && Deserted(s, row, key) ensures key == survivor {
      var i :| i in s.Contact(key);
    }
  }

  /** add_contact_handle orphans a row exactly when it gives a person to an unresolved identity that has one. */
  lemma AddedHandleOrphansIff<T>(s: Store, rep: IdentityId, i: IdentityId, channel: string, handle: string,
                                 newPerson: PersonId, table: Table<T>)
    requires Sound(s) && NoOrphan(s, table) && rep in s.identities && i !in s.identities && newPerson !in s.persons
    ensures !NoOrphan(AddedHandle(s, rep, i, channel, handle, newPerson), table) <==>
      s.identities[rep].personId == None && IdentityKey(rep) in table
  {
    var t := AddedHandle(s, rep, i, channel, handle, newPerson);
    AddedContacts(s, rep, i, channel, handle, newPerson);
    forall key | key in table && key != s.KeyOf(rep) ensures t.Contact(key) != {} {
      assert key != PersonKey(newPerson) || s.KeyOf(rep).PersonKey?;
    }
  }

  // ---------------------------------------------------------------- hidden contacts

  function AfterMergesHidden(s: Store, calls: seq<Call>, orders: seq<seq<ContactKey>>,
                             hidden: set<ContactKey>): set<ContactKey>
    requires AllCallable(s, calls) && |orders| == |calls|
    decreases |calls|
  {
    if calls == [] then hidden
    else
      var c := calls[0];
      AfterMergesHidden(Apply(s, c), calls[1..], orders[1..],
                        RelocateAllHidden(hidden, orders[0], PersonKey(Survivor(s, c.a, c.b, c.newPerson))))
  }

  lemma {:induction false} HiddenRunsLikeRows<T>(s: Store, calls: seq<Call>, orders: seq<seq<ContactKey>>,
                                                 table: Table<T>)
    requires AllCallable(s, calls) && AllVisited(s, calls, orders)
    ensures AfterMerges(s, calls, orders, table).Keys == AfterMergesHidden(s, calls, orders, table.Keys)
    decreases |calls|
  {
    hide Apply;
    if calls != [] {
      var c := calls[0];
      var target := PersonKey(Survivor(s, c.a, c.b, c.newPerson));
      HiddenMovesLikeRows(table, orders[0], target);
      HiddenRunsLikeRows(Apply(s, c), calls[1..], orders[1..], RelocateAll(table, orders[0], target));
    }
  }

  /** Over any run of merges a contact is hidden exactly when one of the contacts joined in it was. */
  lemma MergedContactsInheritHidden(start: Store, hidden: set<ContactKey>, calls: seq<Call>,
                                    orders: seq<seq<ContactKey>>)
    requires Sound(start) && AllCallable(start, calls) && AllVisited(start, calls, orders)
    requires forall k :: k in hidden ==> start.Contact(k) != {}
    ensures var (s, after) := (ApplyAll(start, calls), AfterMergesHidden(start, calls, orders, hidden));
      && (forall k :: k in after ==> s.Contact(k) != {})
      && (forall key :: s.Contact(key) != {} ==> (key in after <==> Origins(start, s, key) * hidden != {}))
  {
    var table: Table<()> := map k | k in hidden :: Stamped((), 0);
    assert table.Keys == hidden;
    MergedContactsInheritNewest(start, table, calls, orders);
    HiddenRunsLikeRows(start, calls, orders, table);
    var (s, after) := (ApplyAll(start, calls), AfterMergesHidden(start, calls, orders, hidden));
    assert forall k :: k in AfterMerges(start, calls, orders, table) <==> k in after;
    forall key | s.Contact(key) != {} ensures key in after <==> Origins(start, s, key) * hidden != {} {
      assert forall k :: k in Origins(start, s, key) * hidden <==> k in Origins(start, s, key) && k in table;
    }
  }
}
