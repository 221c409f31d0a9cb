/** Merging two contacts grafts their merge trees. */
module GraftedTrees {
  import opened Wrappers
  import opened StoreModel
  import opened PersonForest
  import opened LinkClosure
  import opened TreeUpkeep

  function Grafted(s: Store, f: Forest, a: IdentityId, b: IdentityId): Tree
    requires a in s.identities && b in s.identities && s.KeyOf(a) in f && s.KeyOf(b) in f
  {
    var (ta, tb, k) := (f[s.KeyOf(a)], f[s.KeyOf(b)], |s.log|);
    if s.identities[a].personId.None? && s.identities[b].personId.None? then Found(k, {a, b}, {})
    else if s.KeyOf(a) == s.KeyOf(b) then Again(k, ta)
    else if s.identities[a].personId.None? then Join(k, tb, ta)
    else Join(k, ta, tb)
  }

  /** What a merge's row says about the two contacts it joins. */
  lemma RowDescribesMerge(s: Store, a: IdentityId, b: IdentityId, rule: string, kind: string, newPerson: PersonId)
    requires a in s.identities && b in s.identities
    ensures var row := NewRow(s, a, b, rule, kind, newPerson);
      && a in s.Contact(s.KeyOf(a)) && b in s.Contact(s.KeyOf(b))
      && (s.identities[a].personId.Some? ==> row.moved == s.Contact(s.KeyOf(b)) - s.Contact(s.KeyOf(a)))
      && (s.identities[a].personId.None? && s.identities[b].personId.Some? ==> row.moved == s.Contact(s.KeyOf(a)))
      && (s.identities[a].personId.None? && s.identities[b].personId.None? ==> row.moved == Joined(s, a, b))
  {
    assert a in s.Contact(s.KeyOf(a)) && b in s.Contact(s.KeyOf(b));
  }

  lemma FoundingIsOk(h: History, s: Store, a: IdentityId, b: IdentityId, rule: string, kind: string,
                     newPerson: PersonId)
    requires HistoryFits(h, s) && a in s.identities && b in s.identities && newPerson !in s.persons
    requires s.identities[a].personId.None? && s.identities[b].personId.None? && Bare(h, a) && Bare(h, b)
    ensures TreeOk(h, s.log + [NewRow(s, a, b, rule, kind, newPerson)], Found(|s.log|, {a, b}, {}))
  {
    hide Bare;
    RowDescribesMerge(s, a, b, rule, kind, newPerson);
    assert s.Contact(IdentityKey(a)) == {a} && s.Contact(IdentityKey(b)) == {b};
    assert forall x :: x in h.added ==> h.added[x] in h.added.Values;
    assert AddedAt(h, newPerson) == {} && h.start.Contact(PersonKey(newPerson)) == {};
  }

  lemma RepeatingIsOk(h: History, s: Store, t: Tree, a: IdentityId, b: IdentityId, rule: string, kind: string,
                      newPerson: PersonId)
    requires a in s.identities && b in s.identities && TreeFits(h, s, s.KeyOf(a), t) && |h.start.log| <= |s.log|
    requires s.KeyOf(a) == s.KeyOf(b) && s.identities[a].personId.Some?
    ensures TreeOk(h, s.log + [NewRow(s, a, b, rule, kind, newPerson)], Again(|s.log|, t))
  {
    var log := s.log + [NewRow(s, a, b, rule, kind, newPerson)];
    TreeIsOlder(h, s.log, t);
    TreeOkFrame(h, s.log, log, t);
    RowDescribesMerge(s, a, b, rule, kind, newPerson);
    assert AgainOk(log[|s.log|], t, log);
  }

  /** The row of a merge of two contacts, of which that of x keeps its person. */
  lemma RowOfJoin(s: Store, a: IdentityId, b: IdentityId, x: IdentityId, y: IdentityId, rule: string, kind: string,
                  newPerson: PersonId)
    requires a in s.identities && b in s.identities && s.KeyOf(a) != s.KeyOf(b)
    requires (x, y) == (if s.identities[a].personId.Some? then (a, b) else (b, a)) && s.identities[x].personId.Some?
    ensures var row := NewRow(s, a, b, rule, kind, newPerson);
      && Some(row.survivor) == s.identities[x].personId && row.absorbed == s.identities[y].personId
      && row.moved == s.Contact(s.KeyOf(y)) && {row.a, row.b} == {x, y}
      && x in s.Contact(s.KeyOf(x)) && y in s.Contact(s.KeyOf(y)) && s.Contact(s.KeyOf(x)) !! s.Contact(s.KeyOf(y))
  {
    RowDescribesMerge(s, a, b, rule, kind, newPerson);
    assert s.Contact(s.KeyOf(a)) !! s.Contact(s.KeyOf(b));
  }

  lemma JoinNodeIsOk(h: History, log: seq<MergeRow>, k: nat, near: Tree, far: Tree)
    requires InForce(h.start, log, k) && RowsBelow(near, k) && RowsBelow(far, k)
    requires TreeOk(h, log, near) && TreeOk(h, log, far) && JoinOk(log[k], near, far, log)
    ensures TreeOk(h, log, Join(k, near, far))
  {
  }

  lemma JoiningIsOk(h: History, s: Store, a: IdentityId, b: IdentityId, near: Tree, far: Tree, rule: string,
                    kind: string, newPerson: PersonId)
    requires a in s.identities && b in s.identities && s.KeyOf(a) != s.KeyOf(b) && |h.start.log| <= |s.log|
    requires var (x, y) := if s.identities[a].personId.Some? then (a, b) else (b, a);
      && s.identities[x].personId.Some?
      && TreeFits(h, s, s.KeyOf(x), near) && TreeFits(h, s, s.KeyOf(y), far)
    ensures TreeOk(h, s.log + [NewRow(s, a, b, rule, kind, newPerson)], Join(|s.log|, near, far))
  {
    var log := s.log + [NewRow(s, a, b, rule, kind, newPerson)];
    TreeIsOlder(h, s.log, near);
    TreeIsOlder(h, s.log, far);
    TreeOkFrame(h, s.log, log, near);
    TreeOkFrame(h, s.log, log, far);
    var (x, y) := if s.identities[a].personId.Some? then (a, b) else (b, a);
    RowOfJoin(s, a, b, x, y, rule, kind, newPerson);
    hide NewRow, TreeOk;
    assert JoinOk(log[|s.log|], near, far, log);
    hide JoinOk, RowsBelow;
    JoinNodeIsOk(h, log, |s.log|, near, far);
  }

  lemma GraftOk(h: History, s: Store, f: Forest, a: IdentityId, b: IdentityId, rule: string, kind: string,
                newPerson: PersonId)
    requires Tracks(h, s, f) && a in s.identities && b in s.identities && newPerson !in s.persons
    ensures TreeOk(h, s.log + [NewRow(s, a, b, rule, kind, newPerson)], Grafted(s, f, a, b))
  {
    TreeOf(h, s, f, a);
    TreeOf(h, s, f, b);
    assert HistoryFits(h, s) && |h.start.log| <= |s.log|;
    hide Tracks, TreeFits, TreeOk, HistoryFits, NewRow, Bare;
    if s.identities[a].personId.None? && s.identities[b].personId.None? {
      FoundingIsOk(h, s, a, b, rule, kind, newPerson);
    } else if s.KeyOf(a) == s.KeyOf(b) {
      RepeatingIsOk(h, s, f[s.KeyOf(a)], a, b, rule, kind, newPerson);
    } else {
      var g := Grafted(s, f, a, b);
      JoiningIsOk(h, s, a, b, g.left, g.right, rule, kind, newPerson);
    }
  }

  function Graft(s: Store, f: Forest, a: IdentityId, b: IdentityId, newPerson: PersonId): Forest
    requires a in s.identities && b in s.identities && s.KeyOf(a) in f && s.KeyOf(b) in f
  {
    (f - {s.KeyOf(a), s.KeyOf(b)})[PersonKey(Survivor(s, a, b, newPerson)) := Grafted(s, f, a, b)]
  }

  lemma OtherTreeFits(h: History, s: Store, f: Forest, a: IdentityId, b: IdentityId, rule: string, kind: string,
                      newPerson: PersonId, names: Names, key: ContactKey)
    requires Sound(s) && Tracks(h, s, f) && key in f
    requires a in s.identities && b in s.identities && newPerson !in s.persons
    requires key != s.KeyOf(a) && key != s.KeyOf(b) && key != PersonKey(Survivor(s, a, b, newPerson))
    ensures TreeFits(h, Merged(s, a, b, rule, kind, newPerson, names), key, f[key])
  {
    var t := Merged(s, a, b, rule, kind, newPerson, names);
    TreeIsOlder(h, s.log, f[key]);
    TreeOkFrame(h, s.log, t.log, f[key]);
    MergedContacts(s, a, b, rule, kind, newPerson, names);
  }

  lemma MergedKey(s: Store, a: IdentityId, b: IdentityId, rule: string, kind: string, newPerson: PersonId, names: Names,
                  i: IdentityId)
    requires a in s.identities && b in s.identities && i in s.identities
    ensures Merged(s, a, b, rule, kind, newPerson, names).KeyOf(i) ==
      if s.KeyOf(i) == s.KeyOf(a) || s.KeyOf(i) == s.KeyOf(b) then PersonKey(Survivor(s, a, b, newPerson))
      else s.KeyOf(i)
  {
    assert i in s.Contact(s.KeyOf(i));
  }

  lemma GraftFinds(h: History, s: Store, f: Forest, a: IdentityId, b: IdentityId, rule: string, kind: string,
                   newPerson: PersonId, names: Names, i: IdentityId)
    requires ForeignKeys(s) && Tracks(h, s, f)
    requires a in s.identities && b in s.identities && i in s.identities && newPerson !in s.persons
    ensures var (key, g) := (Merged(s, a, b, rule, kind, newPerson, names).KeyOf(i), Graft(s, f, a, b, newPerson));
      key in g && f[s.KeyOf(i)].Rows() <= g[key].Rows()
  {
    TreeOf(h, s, f, i);
    TreeOf(h, s, f, a);
    TreeOf(h, s, f, b);
    MergedKey(s, a, b, rule, kind, newPerson, names, i);
    hide Tracks, TreeFits, Survivor, Graft, Bare, Joined, ForeignKeys;
    GraftHas(s, f, a, b, newPerson, i);
  }

  lemma GraftHas(s: Store, f: Forest, a: IdentityId, b: IdentityId, newPerson: PersonId, i: IdentityId)
    requires ForeignKeys(s) && a in s.identities && b in s.identities && i in s.identities && newPerson !in s.persons
    requires s.KeyOf(a) in f && s.KeyOf(b) in f && s.KeyOf(i) in f
    requires s.identities[a].personId == None ==> f[s.KeyOf(a)] == Leaf(a)
    requires s.identities[b].personId == None ==> f[s.KeyOf(b)] == Leaf(b)
    ensures var (own, g) := (s.KeyOf(i), Graft(s, f, a, b, newPerson));
      var key := if own == s.KeyOf(a) || own == s.KeyOf(b) then PersonKey(Survivor(s, a, b, newPerson)) else own;
      key in g && f[own].Rows() <= g[key].Rows()
  {
    GraftedRows(s, f, a, b);
    NewSurvivorHoldsNobody(s, a, b, newPerson);
    assert i in s.Contact(s.KeyOf(i));
    hide Survivor, Grafted, ForeignKeys;
  }

  lemma GraftedRows(s: Store, f: Forest, a: IdentityId, b: IdentityId)
    requires a in s.identities && b in s.identities && s.KeyOf(a) in f && s.KeyOf(b) in f
    requires s.identities[a].personId == None ==> f[s.KeyOf(a)] == Leaf(a)
    requires s.identities[b].personId == None ==> f[s.KeyOf(b)] == Leaf(b)
    ensures f[s.KeyOf(a)].Rows() <= Grafted(s, f, a, b).Rows() && f[s.KeyOf(b)].Rows() <= Grafted(s, f, a, b).Rows()
  {
  }

  lemma MergeCovers(h: History, s: Store, f: Forest, a: IdentityId, b: IdentityId, rule: string, kind: string,
                    newPerson: PersonId, names: Names)
    requires ForeignKeys(s) && Tracks(h, s, f)
    requires a in s.identities && b in s.identities && newPerson !in s.persons
    ensures Covered(h.start, Merged(s, a, b, rule, kind, newPerson, names), Graft(s, f, a, b, newPerson))
  {
    hide Survivor, Joined, TreeFits, AbsorbedOnce;
    var t := Merged(s, a, b, rule, kind, newPerson, names);
    var g := Graft(s, f, a, b, newPerson);
    forall k | InForce(h.start, t.log, k)
      ensures t.log[k].a in t.identities && t.KeyOf(t.log[k].a) in g && k in g[t.KeyOf(t.log[k].a)].Rows()
    {
      if k < |s.log| {
        assert InForce(h.start, s.log, k);
        GraftFinds(h, s, f, a, b, rule, kind, newPerson, names, s.log[k].a);
      } else {
        MergedKey(s, a, b, rule, kind, newPerson, names, a);
      }
    }
  }

  lemma NewSurvivorHoldsNobody(s: Store, a: IdentityId, b: IdentityId, newPerson: PersonId)
    requires ForeignKeys(s) && a in s.identities && b in s.identities && newPerson !in s.persons
    ensures var key := PersonKey(Survivor(s, a, b, newPerson));
      key == s.KeyOf(a) || key == s.KeyOf(b) || s.Contact(key) == {}
  {
  }

  lemma GraftedFits(h: History, s: Store, f: Forest, a: IdentityId, b: IdentityId, rule: string, kind: string,
                    newPerson: PersonId, names: Names)
    requires Sound(s) && Tracks(h, s, f)
    requires a in s.identities && b in s.identities && newPerson !in s.persons
    ensures TreeFits(h, Merged(s, a, b, rule, kind, newPerson, names), PersonKey(Survivor(s, a, b, newPerson)),
      Grafted(s, f, a, b))
  {
    hide TreeOk;
    GraftOk(h, s, f, a, b, rule, kind, newPerson);
    MergedContacts(s, a, b, rule, kind, newPerson, names);
  }

  lemma MergeTracks(h: History, s: Store, f: Forest, a: IdentityId, b: IdentityId, rule: string, kind: string,
                    newPerson: PersonId, names: Names) returns (g: Forest)
    requires Sound(s) && Tracks(h, s, f)
    requires a in s.identities && b in s.identities && newPerson !in s.persons
    ensures Tracks(h, Merged(s, a, b, rule, kind, newPerson, names), g)
  {
    var survivor := PersonKey(Survivor(s, a, b, newPerson));
    g := Graft(s, f, a, b, newPerson);
    GraftedFits(h, s, f, a, b, rule, kind, newPerson, names);
    forall key | key in g ensures TreeFits(h, Merged(s, a, b, rule, kind, newPerson, names), key, g[key]) {
      if key != survivor {
        OtherTreeFits(h, s, f, a, b, rule, kind, newPerson, names, key);
      }
    }
    forall i | i in s.identities ensures Merged(s, a, b, rule, kind, newPerson, names).KeyOf(i) in g {
      GraftFinds(h, s, f, a, b, rule, kind, newPerson, names, i);
    }
    MergeCovers(h, s, f, a, b, rule, kind, newPerson, names);
    MergeAbsorbsOnce(h, s, a, b, rule, kind, newPerson, names);
  }

  lemma MergedContacts(s: Store, a: IdentityId, b: IdentityId, rule: string, kind: string, newPerson: PersonId,
                       names: Names)
    requires Sound(s) && a in s.identities && b in s.identities && newPerson !in s.persons
    ensures var t := Merged(s, a, b, rule, kind, newPerson, names);
      && t.Contact(PersonKey(Survivor(s, a, b, newPerson))) == Joined(s, a, b)
      && (forall key :: key != PersonKey(Survivor(s, a, b, newPerson)) && key != s.KeyOf(a) && key != s.KeyOf(b) ==>
           t.Contact(key) == s.Contact(key))
  {
  }

  lemma OlderAbsorbedStaysFolded(h: History, s: Store, a: IdentityId, b: IdentityId, newPerson: PersonId, k: nat)
    requires HoldersAreRoots(s) && AbsorbedOnce(h.start, s) && InForce(h.start, s.log, k) && RowReferences(s, s.log[k])
    requires a in s.identities && b in s.identities && newPerson !in s.persons && s.log[k].absorbed.Some?
    ensures s.log[k].absorbed != Absorbed(s, a, b) && s.log[k].absorbed.value != Survivor(s, a, b, newPerson)
  {
    assert s.IsRoot(Survivor(s, a, b, newPerson)) || Survivor(s, a, b, newPerson) == newPerson;
  }

  lemma MergeAbsorbsOnce(h: History, s: Store, a: IdentityId, b: IdentityId, rule: string, kind: string,
                         newPerson: PersonId, names: Names)
    requires HoldersAreRoots(s) && AbsorbedOnce(h.start, s) && |h.start.log| <= |s.log|
    requires forall k :: 0 <= k < |s.log| ==> RowReferences(s, s.log[k])
    requires a in s.identities && b in s.identities && newPerson !in s.persons
    ensures AbsorbedOnce(h.start, Merged(s, a, b, rule, kind, newPerson, names))
  {
    var t := Merged(s, a, b, rule, kind, newPerson, names);
    forall k | InForce(h.start, t.log, k) && t.log[k].absorbed.Some?
      ensures !t.IsRoot(t.log[k].absorbed.value)
      ensures k < |s.log| ==> InForce(h.start, s.log, k) && t.log[k].absorbed != Absorbed(s, a, b)
    {
      if k < |s.log| {
        OlderAbsorbedStaysFolded(h, s, a, b, newPerson, k);
      }
    }
  }
}
