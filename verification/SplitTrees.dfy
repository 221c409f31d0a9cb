/** A careful undo splits the merge tree of a contact at its root. */
module SplitTrees {
  import opened Wrappers
  import opened StoreModel
  import opened PersonForest
  import opened LinkClosure
  import opened TreeUpkeep

  ghost predicate CarefulUndo(start: Store, s: Store, k: nat) {
    AcceptsUndo(s, k) && InForce(start, s.log, k) && s.IsRoot(s.log[k].survivor)
  }

  /** The row a careful undo takes back is the root of its survivor's merge tree. */
  lemma UndoneRowIsRoot(h: History, s: Store, f: Forest, k: nat)
    requires Tracks(h, s, f) && CarefulUndo(h.start, s, k)
    ensures AtRoot(s, f, k)
  {
    var a := s.log[k].a;
    var t := f[s.KeyOf(a)];
    TreeOf(h, s, f, a);
    RootOrCovered(h, s.log, t, k);
    if t.row != k {
      var m :| m in t.Rows() && k < m < |s.log|
        && (s.log[m].survivor == s.log[k].survivor || s.log[m].absorbed == Some(s.log[k].survivor));
      RowsInside(h, s.log, t, m);
      assert false;
    }
  }

  /** The tree whose root is row k. */
  function TreeAt(s: Store, f: Forest, k: nat): Tree
    requires k < |s.log| && PersonKey(s.log[k].survivor) in f
  {
    f[PersonKey(s.log[k].survivor)]
  }

  ghost predicate AtRoot(s: Store, f: Forest, k: nat) {
    && k < |s.log| && PersonKey(s.log[k].survivor) in f
    && TreeAt(s, f, k).HasRow() && TreeAt(s, f, k).row == k
  }

  /** The key under which the absorbed side of a join comes back. */
  function FarKey(row: MergeRow, r: Tree): ContactKey {
    if r.Leaf? then IdentityKey(r.i)
    else if row.absorbed.Some? then PersonKey(row.absorbed.value) else PersonKey(row.survivor)
  }

  /** What a tree falls into when its root row is undone. */
  function Parts(row: MergeRow, t: Tree): Forest {
    var near := PersonKey(row.survivor);
    match t
    case Found(_, ends, seated) =>
      (map key | key in (set i | i in ends :: IdentityKey(i)) :: Leaf(if key.IdentityKey? then key.identity else row.a))
      + (if seated == {} then map[] else map[near := Seat(row.survivor, seated)])
    case Join(_, l, r) => map[near := l][FarKey(row, r) := r]
    case Again(_, l) => map[near := l]
    case _ => map[]
  }

  function Split(s: Store, f: Forest, k: nat): Forest
    requires AtRoot(s, f, k)
  {
    (f - {PersonKey(s.log[k].survivor)}) + Parts(s.log[k], TreeAt(s, f, k))
  }

  /** The contacts after the inverse step, in terms of the contacts before it. */
  lemma UndoneContact(s: Store, k: nat, key: ContactKey)
    requires k < |s.log| && s.log[k].moved <= s.identities.Keys
    ensures Unmerged(s, k).Contact(key) == (s.Contact(key) - s.log[k].moved) +
      match (s.log[k].absorbed, key)
      case (Some(p), _) => if key == PersonKey(p) then s.log[k].moved else {}
      case (None, IdentityKey(i)) => if i in s.log[k].moved then {i} else {}
      case (None, PersonKey(_)) => {}
  {
  }

  lemma OnlyBareTreesAreUnheld(h: History, log: seq<MergeRow>, t: Tree)
    requires TreeOk(h, log, t) && t.Holder(log) == None
    ensures t.Leaf?
  {
    hide FoundOk, JoinOk, AgainOk;
  }

  /** What the root row of a contact's tree moved, and whom it absorbed. */
  ghost predicate RootRowIs(s: Store, row: MergeRow, t: Tree) {
    && s.Contact(PersonKey(row.survivor)) == t.Leaves() && row.moved <= t.Leaves()
    && (row.absorbed.Some? ==> s.Contact(PersonKey(row.absorbed.value)) == {} && row.absorbed.value != row.survivor)
    && match t
       case Found(_, ends, seated) => row.moved == ends && ends !! seated && row.absorbed == None
       case Join(_, l, r) =>
         && row.moved == r.Leaves() && l.Leaves() !! r.Leaves()
         && (if row.absorbed == None then r.Leaf? else !r.Leaf?)
       case Again(_, l) => row.moved == {} && row.absorbed == None
       case _ => false
  }

  lemma RootRow(h: History, s: Store, f: Forest, k: nat)
    requires Sound(s) && Tracks(h, s, f) && CarefulUndo(h.start, s, k) && AtRoot(s, f, k)
    ensures RootRowIs(s, s.log[k], TreeAt(s, f, k))
  {
    var t := TreeAt(s, f, k);
    FitsAt(h, s, f, PersonKey(s.log[k].survivor));
    assert RowReferences(s, s.log[k]);
    assert s.log[k].absorbed.Some? ==> !s.IsRoot(s.log[k].absorbed.value);
    hide Tracks;
    assert s.log[k].absorbed.Some? ==> s.Contact(PersonKey(s.log[k].absorbed.value)) == {};
    hide Sound;
    if t.Join? && s.log[k].absorbed == None {
      OnlyBareTreesAreUnheld(h, s.log, t.right);
    }
  }

  lemma HeldIsNotBare(s: Store, i: IdentityId, p: PersonId)
    requires i in s.Contact(PersonKey(p))
    ensures s.Contact(IdentityKey(i)) == {}
  {
  }

  /** The parts are the contacts that the undo makes of one, and only the survivor's key was taken. */
  lemma PartsAreContacts(s: Store, k: nat, t: Tree, key: ContactKey)
    requires k < |s.log| && s.log[k].moved <= s.identities.Keys && RootRowIs(s, s.log[k], t)
    requires key in Parts(s.log[k], t)
    ensures Unmerged(s, k).Contact(key) == Parts(s.log[k], t)[key].Leaves()
    ensures key == PersonKey(s.log[k].survivor) || s.Contact(key) == {}
  {
    UndoneContact(s, k, key);
    if key.IdentityKey? {
      assert key.identity in s.Contact(PersonKey(s.log[k].survivor));
      HeldIsNotBare(s, key.identity, s.log[k].survivor);
    }
    hide Unmerged;
  }

  /** Every identity of the split contact is in one of the parts, under its new key. */
  lemma PartOf(s: Store, k: nat, t: Tree, i: IdentityId)
    requires k < |s.log| && s.log[k].moved <= s.identities.Keys && RootRowIs(s, s.log[k], t)
    requires i in s.Contact(PersonKey(s.log[k].survivor))
    requires t.Found? ==> s.log[k].a in t.ends
    ensures var key := Unmerged(s, k).KeyOf(i); key in Parts(s.log[k], t) && i in Parts(s.log[k], t)[key].Leaves()
  {
    var key := Unmerged(s, k).KeyOf(i);
    assert key == if i !in s.log[k].moved then PersonKey(s.log[k].survivor)
                  else if s.log[k].absorbed.Some? then PersonKey(s.log[k].absorbed.value) else IdentityKey(i);
    hide Unmerged;
    if t.Found? && i in t.ends {
      assert key in (set x | x in t.ends :: IdentityKey(x));
    }
  }

  lemma PartsAreOk(h: History, s: Store, k: nat, t: Tree, key: ContactKey)
    requires TreeOk(h, s.log, t) && t.HasRow() && t.row == k && k < |s.log| && key in Parts(s.log[k], t)
    requires RootRowIs(s, s.log[k], t)
    ensures var part := Parts(s.log[k], t)[key];
      && TreeOk(h, s.log, part) && k !in part.Rows()
      && match key
         case IdentityKey(i) => part == Leaf(i)
         case PersonKey(p) => part.Holder(s.log) == Some(p)
  {
    var part := Parts(s.log[k], t)[key];
    match t
    case Found(_, ends, seated) =>
    case Join(_, l, r) =>
      hide FoundOk;
    case Again(_, l) =>
      hide FoundOk;
  }

  lemma PartsFit(h: History, s: Store, f: Forest, k: nat, key: ContactKey)
    requires Sound(s) && Tracks(h, s, f) && CarefulUndo(h.start, s, k) && AtRoot(s, f, k)
    requires key in Parts(s.log[k], TreeAt(s, f, k))
    ensures TreeFits(h, Unmerged(s, k), key, Parts(s.log[k], TreeAt(s, f, k))[key])
    ensures key == PersonKey(s.log[k].survivor) || s.Contact(key) == {}
  {
    var t := TreeAt(s, f, k);
    RootRow(h, s, f, k);
    FitsAt(h, s, f, PersonKey(s.log[k].survivor));
    assert RowReferences(s, s.log[k]);
    hide Sound, Tracks, RootRowIs;
    PartsAreContacts(s, k, t, key);
    PartsAreOk(h, s, k, t, key);
    hide Parts;
    TreeOkFrame(h, s.log, Unmerged(s, k).log, Parts(s.log[k], t)[key]);
  }

  lemma RowElsewhereOnly(h: History, s: Store, f: Forest, k: nat, key: ContactKey)
    requires Tracks(h, s, f) && AtRoot(s, f, k) && key in f && key != PersonKey(s.log[k].survivor)
    ensures k !in f[key].Rows()
  {
    var own := PersonKey(s.log[k].survivor);
    FitsAt(h, s, f, own);
    FitsAt(h, s, f, key);
    hide Tracks;
    RowsInside(h, s.log, f[own], k);
    assert s.log[k].a in s.Contact(own);
    if k in f[key].Rows() {
      RowsInside(h, s.log, f[key], k);
      assert false;
    }
  }

  lemma OtherContactStays(s: Store, k: nat, t: Tree, key: ContactKey)
    requires k < |s.log| && s.log[k].moved <= s.identities.Keys && RootRowIs(s, s.log[k], t)
    requires s.Contact(key) != {} && key != PersonKey(s.log[k].survivor)
    ensures Unmerged(s, k).Contact(key) == s.Contact(key)
  {
    UndoneContact(s, k, key);
    assert s.Contact(key) !! s.Contact(PersonKey(s.log[k].survivor));
    if key.IdentityKey? {
      assert key.identity in s.Contact(key);
    }
  }

  /** A contact the undo neither splits nor brings back keeps its identities and its tree. */
  lemma UntouchedTreeFits(h: History, s: Store, f: Forest, k: nat, key: ContactKey)
    requires Sound(s) && Tracks(h, s, f) && CarefulUndo(h.start, s, k) && AtRoot(s, f, k)
    requires key in f && key != PersonKey(s.log[k].survivor)
    ensures TreeFits(h, Unmerged(s, k), key, f[key]) && key !in Parts(s.log[k], TreeAt(s, f, k))
  {
    RootRow(h, s, f, k);
    RowElsewhereOnly(h, s, f, k, key);
    FitsAt(h, s, f, key);
    LeavesNonempty(h, s.log, f[key]);
    if key in Parts(s.log[k], TreeAt(s, f, k)) {
      PartsFit(h, s, f, k, key);
      assert false;
    }
    assert RowReferences(s, s.log[k]);
    hide Sound, Tracks, RootRowIs, Parts;
    OtherContactStays(s, k, TreeAt(s, f, k), key);
    TreeOkFrame(h, s.log, Unmerged(s, k).log, f[key]);
  }

  /** Where an identity is found after the split. */
  lemma SplitFinds(h: History, s: Store, f: Forest, k: nat, i: IdentityId)
    requires Sound(s) && Tracks(h, s, f) && CarefulUndo(h.start, s, k) && AtRoot(s, f, k) && i in s.identities
    ensures var (own, key) := (PersonKey(s.log[k].survivor), Unmerged(s, k).KeyOf(i));
      if s.KeyOf(i) == own
      then key in Parts(s.log[k], TreeAt(s, f, k)) && i in Parts(s.log[k], TreeAt(s, f, k))[key].Leaves()
      else key == s.KeyOf(i) && key in f && key !in Parts(s.log[k], TreeAt(s, f, k))
  {
    TreeOf(h, s, f, i);
    RootRow(h, s, f, k);
    FitsAt(h, s, f, PersonKey(s.log[k].survivor));
    assert RowReferences(s, s.log[k]);
    if s.KeyOf(i) == PersonKey(s.log[k].survivor) {
      hide Sound, Tracks, RootRowIs, Parts;
      PartOf(s, k, TreeAt(s, f, k), i);
    } else {
      UntouchedTreeFits(h, s, f, k, s.KeyOf(i));
      assert i !in s.log[k].moved;
    }
  }

  /** Every row but the root is in one of the parts. */
  lemma RowsOfParts(h: History, s: Store, t: Tree, row: MergeRow, m: nat)
    requires TreeOk(h, s.log, t) && RootRowIs(s, row, t) && m in t.Rows() && m != t.row
    ensures exists key :: key in Parts(row, t) && m in Parts(row, t)[key].Rows()
  {
    var (near, parts) := (PersonKey(row.survivor), Parts(row, t));
    if t.Join? && m in t.right.Rows() {
      assert FarKey(row, t.right) in parts && m in parts[FarKey(row, t.right)].Rows();
    } else {
      assert near in parts && m in parts[near].Rows();
    }
  }

  lemma RowStaysCovered(h: History, s: Store, f: Forest, k: nat, m: nat)
    requires Sound(s) && Tracks(h, s, f) && CarefulUndo(h.start, s, k) && AtRoot(s, f, k)
    requires InForce(h.start, s.log, m) && m != k
    ensures s.log[m].a in s.identities
    ensures var key := Unmerged(s, k).KeyOf(s.log[m].a); key in Split(s, f, k) && m in Split(s, f, k)[key].Rows()
  {
    var (a, t, row) := (s.log[m].a, TreeAt(s, f, k), s.log[k]);
    assert a in s.identities && m in f[s.KeyOf(a)].Rows();
    SplitFinds(h, s, f, k, a);
    if s.KeyOf(a) == PersonKey(row.survivor) {
      RootRow(h, s, f, k);
      FitsAt(h, s, f, PersonKey(row.survivor));
      assert RowReferences(s, row);
      hide Sound, Tracks, Unmerged;
      RowsOfParts(h, s, t, row, m);
      var key :| key in Parts(row, t) && m in Parts(row, t)[key].Rows();
      PartsAreOk(h, s, k, t, key);
      RowsInside(h, s.log, Parts(row, t)[key], m);
      PartsAreContacts(s, k, t, key);
      assert a in Unmerged(s, k).Contact(key);
    }
  }

  lemma SplitCovers(h: History, s: Store, f: Forest, k: nat)
    requires Sound(s) && Tracks(h, s, f) && CarefulUndo(h.start, s, k) && AtRoot(s, f, k)
    ensures forall i :: i in s.identities ==> Unmerged(s, k).KeyOf(i) in Split(s, f, k)
    ensures Covered(h.start, Unmerged(s, k), Split(s, f, k))
  {
    hide Sound, Tracks, Parts, AtRoot;
    var (u, g) := (Unmerged(s, k), Split(s, f, k));
    forall i | i in s.identities ensures u.KeyOf(i) in g {
      SplitFinds(h, s, f, k, i);
    }
    forall m | InForce(h.start, u.log, m)
      ensures u.log[m].a in u.identities && u.KeyOf(u.log[m].a) in g && m in g[u.KeyOf(u.log[m].a)].Rows()
    {
      RowStaysCovered(h, s, f, k, m);
    }
  }

  lemma UndoAbsorbsOnce(start: Store, s: Store, k: nat)
    requires AbsorbedOnce(start, s) && CarefulUndo(start, s, k)
    ensures AbsorbedOnce(start, Unmerged(s, k))
  {
    var u := Unmerged(s, k);
    forall m | InForce(start, u.log, m) ensures InForce(start, s.log, m) && u.log[m] == s.log[m] {
    }
  }

  lemma UndoTracks(h: History, s: Store, f: Forest, k: nat) returns (g: Forest)
    requires Sound(s) && Tracks(h, s, f) && CarefulUndo(h.start, s, k)
    ensures Tracks(h, Unmerged(s, k), g)
  {
    UndoneRowIsRoot(h, s, f, k);
    g := Split(s, f, k);
    UndoAbsorbsOnce(h.start, s, k);
    SplitCovers(h, s, f, k);
    assert HistoryFits(h, Unmerged(s, k));
    hide Sound, TreeFits, Covered, AbsorbedOnce, HistoryFits, Unmerged, Parts;
    forall key | key in g ensures TreeFits(h, Unmerged(s, k), key, g[key]) {
      if key in Parts(s.log[k], TreeAt(s, f, k)) {
        PartsFit(h, s, f, k, key);
      } else {
        UntouchedTreeFits(h, s, f, k, key);
      }
    }
  }
}
