/**
  The partition of identities into contacts is the equivalence closure of the merge log: two
  identities are one contact exactly when a chain of merges still in force connects them, where an
  identity added by hand to a contact comes with the person it was added to.

  The proof keeps, beside the tables, one merge tree per contact: a node for every row in force,
  its leaves the identities it brought together. Undo is let through only at the root of a tree.
 */
module LinkClosure {
  import opened Wrappers
  import opened StoreModel
  import opened Runs
  import opened PersonForest

  // ---------------------------------------------------------------- the specification

  /** The store a run started from, and the person at which each identity was put by hand since. */
  datatype History = History(start: Store, added: map<IdentityId, PersonId>)

  /** add_contact_handle puts the new identity at the contact's person, and first an unresolved one at a new person. */
  function AttachedBy(s: Store, e: Event, added: map<IdentityId, PersonId>): map<IdentityId, PersonId>
    requires Possible(s, e)
  {
    match e
    case AddHandle(_, representative, i, _, _, newPerson) =>
      var person := s.identities[representative].personId;
      if person.Some? then added[i := person.value] else added[representative := newPerson][i := newPerson]
    case _ => added
  }

  function Attached(s: Store, run: seq<Event>, added: map<IdentityId, PersonId>): map<IdentityId, PersonId>
    requires IsRun(s, run)
    decreases |run|
  {
    if run == [] then added else Attached(Step(s, run[0]), run[1..], AttachedBy(s, run[0], added))
  }

  function AddedAt(h: History, p: PersonId): set<IdentityId> {
    set i | i in h.added && h.added[i] == p
  }

  /** The identities a person holds other than by a merge: since the start, or by hand. */
  function SeatedAt(h: History, p: PersonId): set<IdentityId> {
    h.start.Contact(PersonKey(p)) + AddedAt(h, p)
  }

  predicate Ends(row: MergeRow, x: IdentityId, y: IdentityId) {
    (row.a == x && row.b == y) || (row.a == y && row.b == x)
  }

  /** Row k was logged after `start` and is in force. */
  predicate InForce(start: Store, log: seq<MergeRow>, k: int) {
    |start.log| <= k < |log| && !log[k].reversed
  }

  /** What a merge brings together: its two identities, with whatever was put by hand at the person it keeps. */
  function Reach(h: History, row: MergeRow): set<IdentityId> {
    {row.a, row.b} + AddedAt(h, row.survivor)
  }

  ghost predicate SameAtStart(start: Store, x: IdentityId, y: IdentityId) {
    x in start.identities && y in start.identities && start.KeyOf(x) == start.KeyOf(y)
  }

  /** One contact at the start, seated at one person, or brought together by one row in force. */
  ghost predicate Linked(h: History, log: seq<MergeRow>, x: IdentityId, y: IdentityId) {
    || SameAtStart(h.start, x, y)
    || (exists p :: x in SeatedAt(h, p) && y in SeatedAt(h, p))
    || (exists k :: InForce(h.start, log, k) && x in Reach(h, log[k]) && y in Reach(h, log[k]))
  }

  /** Where nothing was added by hand, only the pairs of rows in force link what was apart at the start. */
  lemma WithoutHandlesOnlyPairsLink(start: Store, log: seq<MergeRow>, x: IdentityId, y: IdentityId)
    requires x != y
    ensures Linked(History(start, map[]), log, x, y) <==>
      SameAtStart(start, x, y) || exists k :: InForce(start, log, k) && Ends(log[k], x, y)
  {
    var h := History(start, map[]);
    assert forall p :: AddedAt(h, p) == {};
    if k :| InForce(start, log, k) && Ends(log[k], x, y) {
      assert x in Reach(h, log[k]) && y in Reach(h, log[k]);
    }
    if k :| InForce(start, log, k) && x in Reach(h, log[k]) && y in Reach(h, log[k]) {
      assert Ends(log[k], x, y);
    }
  }

  ghost predicate IsChain(h: History, log: seq<MergeRow>, chain: seq<IdentityId>) {
    forall j :: 0 <= j < |chain| - 1 ==> Linked(h, log, chain[j], chain[j + 1])
  }

  /** The equivalence closure of Linked. */
  ghost predicate Connected(h: History, log: seq<MergeRow>, x: IdentityId, y: IdentityId) {
    exists chain :: |chain| > 0 && chain[0] == x && chain[|chain| - 1] == y && IsChain(h, log, chain)
  }

  /** An undo, if the gate lets it through, takes back a row in force at a person still standing. */
  predicate CarefulEvent(start: Store, s: Store, e: Event) {
    e.Undo? && AcceptsUndo(s, e.row) ==> InForce(start, s.log, e.row) && s.IsRoot(s.log[e.row].survivor)
  }

  predicate CarefulRun(start: Store, s: Store, run: seq<Event>)
    requires IsRun(s, run)
    decreases |run|
  {
    run != [] ==> CarefulEvent(start, s, run[0]) && CarefulRun(start, Step(s, run[0]), run[1..])
  }

  // ---------------------------------------------------------------- merge trees

  datatype Tree =
    | Leaf(i: IdentityId)
    | Seat(person: PersonId, members: set<IdentityId>)  // what a person holds other than by a merge
    | Found(row: nat, ends: set<IdentityId>, seated: set<IdentityId>)  // unresolved identities given a new person
    | Join(row: nat, left: Tree, right: Tree)            // the left side holds the survivor
    | Again(row: nat, left: Tree)                        // both ends were together already
  {
    function Leaves(): set<IdentityId> {
      match this
      case Leaf(i) => {i}
      case Seat(_, members) => members
      case Found(_, ends, seated) => ends + seated
      case Join(_, l, r) => l.Leaves() + r.Leaves()
      case Again(_, l) => l.Leaves()
    }

    function Rows(): set<nat> {
      match this
      case Leaf(_) => {}
      case Seat(_, _) => {}
      case Found(k, _, _) => {k}
      case Join(k, l, r) => {k} + l.Rows() + r.Rows()
      case Again(k, l) => {k} + l.Rows()
    }

    /** The person whose identities the leaves are, while this tree is a whole contact. */
    function Holder(log: seq<MergeRow>): Option<PersonId> {
      match this
      case Leaf(_) => None
      case Seat(p, _) => Some(p)
      case Found(k, _, _) => if k < |log| then Some(log[k].survivor) else None
      case Join(k, _, _) => if k < |log| then Some(log[k].survivor) else None
      case Again(k, _) => if k < |log| then Some(log[k].survivor) else None
    }

    /** The persons whose own identities are among the leaves. */
    function Persons(log: seq<MergeRow>): set<PersonId> {
      match this
      case Leaf(_) => {}
      case Seat(p, _) => {p}
      case Found(k, _, _) => if k < |log| then {log[k].survivor} else {}
      case Join(_, l, r) => l.Persons(log) + r.Persons(log)
      case Again(_, l) => l.Persons(log)
    }

    predicate HasRow() {
      Found? || Join? || Again?
    }
  }

  ghost predicate RowsBelow(t: Tree, k: nat) {
    forall m :: m in t.Rows() ==> m < k
  }

  /** Seated nowhere. */
  ghost predicate Bare(h: History, i: IdentityId) {
    i !in h.added && (i in h.start.identities ==> h.start.identities[i].personId == None)
  }

  ghost predicate FoundOk(h: History, row: MergeRow, ends: set<IdentityId>, seated: set<IdentityId>) {
    && ends == {row.a, row.b} && row.moved == ends && row.absorbed == None
    && (forall i :: i in ends ==> Bare(h, i))
    && seated == AddedAt(h, row.survivor) && h.start.Contact(PersonKey(row.survivor)) == {}
  }

  ghost predicate JoinOk(row: MergeRow, l: Tree, r: Tree, log: seq<MergeRow>) {
    && l.Leaves() !! r.Leaves()
    && ((row.a in l.Leaves() && row.b in r.Leaves()) || (row.b in l.Leaves() && row.a in r.Leaves()))
    && l.Holder(log) == Some(row.survivor) && r.Holder(log) == row.absorbed
    && row.moved == r.Leaves()
  }

  ghost predicate AgainOk(row: MergeRow, l: Tree, log: seq<MergeRow>) {
    && row.a in l.Leaves() && row.b in l.Leaves()
    && l.Holder(log) == Some(row.survivor) && row.absorbed == None
    && row.moved == {}
  }

  ghost predicate TreeOk(h: History, log: seq<MergeRow>, t: Tree) {
    match t
    case Leaf(i) => Bare(h, i)
    case Seat(p, members) => members == SeatedAt(h, p) && members != {}
    case Found(k, ends, seated) => InForce(h.start, log, k) && FoundOk(h, log[k], ends, seated)
    case Join(k, l, r) =>
      && InForce(h.start, log, k) && RowsBelow(l, k) && RowsBelow(r, k)
      && TreeOk(h, log, l) && TreeOk(h, log, r) && JoinOk(log[k], l, r, log)
    case Again(k, l) =>
      && InForce(h.start, log, k) && RowsBelow(l, k) && TreeOk(h, log, l) && AgainOk(log[k], l, log)
  }

  type Forest = map<ContactKey, Tree>

  ghost predicate TreeFits(h: History, s: Store, key: ContactKey, t: Tree) {
    && TreeOk(h, s.log, t)
    && t.Leaves() == s.Contact(key)
    && match key
       case IdentityKey(i) => t == Leaf(i)
       case PersonKey(p) => t.Holder(s.log) == Some(p)
  }

  ghost predicate Covered(start: Store, s: Store, f: Forest) {
    forall k :: InForce(start, s.log, k) ==>
      && s.log[k].a in s.identities
      && s.KeyOf(s.log[k].a) in f
      && k in f[s.KeyOf(s.log[k].a)].Rows()
  }

  /** Whoever a row in force absorbed is still folded, and no two rows in force absorbed one person. */
  ghost predicate AbsorbedOnce(start: Store, s: Store) {
    && (forall k :: InForce(start, s.log, k) && s.log[k].absorbed.Some? ==> !s.IsRoot(s.log[k].absorbed.value))
    && (forall k, m :: InForce(start, s.log, k) && InForce(start, s.log, m) && k != m && s.log[k].absorbed.Some? ==>
         s.log[k].absorbed != s.log[m].absorbed)
  }

  /** Nobody seated at the start was put anywhere by hand. */
  ghost predicate SeatedOnce(h: History) {
    forall i :: i in h.added && i in h.start.identities ==> h.start.identities[i].personId == None
  }

  ghost predicate HistoryFits(h: History, s: Store) {
    && ForeignKeys(h.start) && SeatedOnce(h)
    && h.start.identities.Keys <= s.identities.Keys && h.start.persons.Keys <= s.persons.Keys
    && |h.start.log| <= |s.log|
    && h.added.Keys <= s.identities.Keys && h.added.Values <= s.persons.Keys
  }

  ghost predicate Tracks(h: History, s: Store, f: Forest) {
    && HistoryFits(h, s)
    && (forall i :: i in s.identities ==> s.KeyOf(i) in f)
    && (forall key :: key in f ==> TreeFits(h, s, key, f[key]))
    && Covered(h.start, s, f)
    && AbsorbedOnce(h.start, s)
  }

  // ---------------------------------------------------------------- facts about one tree

  lemma {:induction false} LeavesNonempty(h: History, log: seq<MergeRow>, t: Tree)
    requires TreeOk(h, log, t)
    ensures t.Leaves() != {}
  {
    match t
    case Leaf(i) => assert i in t.Leaves();
    case Seat(_, _) =>
    case Found(k, _, _) => assert log[k].a in t.Leaves();
    case Join(_, l, _) => LeavesNonempty(h, log, l);
    case Again(_, l) => LeavesNonempty(h, log, l);
  }

  /** Whoever was put by hand at a tree's holder is among its leaves. */
  lemma {:induction false} HolderIsInside(h: History, log: seq<MergeRow>, t: Tree, p: PersonId)
    requires TreeOk(h, log, t) && t.Holder(log) == Some(p)
    ensures AddedAt(h, p) <= t.Leaves()
  {
    match t
    case Seat(_, _) =>
    case Found(_, _, _) =>
    case Join(_, l, _) => HolderIsInside(h, log, l, p);
    case Again(_, l) => HolderIsInside(h, log, l, p);
  }

  /** Rows of a tree are in force and all they reach is among its leaves. */
  lemma {:induction false} RowsInside(h: History, log: seq<MergeRow>, t: Tree, k: nat)
    requires TreeOk(h, log, t) && k in t.Rows()
    ensures InForce(h.start, log, k) && Reach(h, log[k]) <= t.Leaves()
    ensures log[k].a in t.Leaves() && log[k].b in t.Leaves()
  {
    hide SeatedAt, Bare;
    match t
    case Found(_, _, _) =>
    case Join(top, l, r) =>
      if k == top {
        HolderIsInside(h, log, l, log[k].survivor);
      } else if k in l.Rows() {
        RowsInside(h, log, l, k);
      } else {
        RowsInside(h, log, r, k);
      }
    case Again(top, l) =>
      if k == top {
        HolderIsInside(h, log, l, log[k].survivor);
      } else {
        RowsInside(h, log, l, k);
      }
  }

  /** A tree survives any change of the log outside its rows. */
  lemma {:induction false} TreeOkFrame(h: History, before: seq<MergeRow>, after: seq<MergeRow>, t: Tree)
    requires TreeOk(h, before, t)
    requires |before| <= |after| && forall k :: k in t.Rows() && k < |before| ==> after[k] == before[k]
    ensures TreeOk(h, after, t) && t.Holder(after) == t.Holder(before)
  {
    hide SeatedAt, Bare, AddedAt;
    match t
    case Leaf(_) =>
    case Seat(_, _) =>
    case Found(_, _, _) =>
    case Join(_, l, r) =>
      TreeOkFrame(h, before, after, l);
      TreeOkFrame(h, before, after, r);
    case Again(_, l) => TreeOkFrame(h, before, after, l);
  }

  ghost predicate CoveredBy(log: seq<MergeRow>, t: Tree, k: nat)
    requires k < |log|
  {
    exists m :: m in t.Rows() && k < m < |log|
      && (log[m].survivor == log[k].survivor || log[m].absorbed == Some(log[k].survivor))
  }

  /** Below the root of a tree, a row is built upon or its survivor has been absorbed. */
  lemma {:induction false} RootOrCovered(h: History, log: seq<MergeRow>, t: Tree, k: nat)
    requires TreeOk(h, log, t) && k in t.Rows() && k < |log|
    ensures t.row == k || CoveredBy(log, t, k)
  {
    hide FoundOk;
    if k != t.row {
      var child := match t case Join(_, l, r) => if k in l.Rows() then l else r case Again(_, l) => l;
      RowsInside(h, log, t, t.row);
      RootOrCovered(h, log, child, k);
      if child.row == k {
        assert t.row in t.Rows();
      }
    }
  }

  /** Of the persons in a tree only its holder has not been absorbed by one of its rows. */
  lemma {:induction false} PersonsAreHeldOrFolded(h: History, log: seq<MergeRow>, t: Tree, p: PersonId)
    requires TreeOk(h, log, t) && p in t.Persons(log)
    ensures t.Holder(log) == Some(p) || exists m :: m in t.Rows() && m < |log| && log[m].absorbed == Some(p)
  {
    hide FoundOk, SeatedAt;
    match t
    case Seat(_, _) =>
    case Found(_, _, _) =>
    case Join(k, l, r) =>
      if p in l.Persons(log) {
        PersonsAreHeldOrFolded(h, log, l, p);
      } else {
        PersonsAreHeldOrFolded(h, log, r, p);
        assert k in t.Rows();
      }
    case Again(_, l) => PersonsAreHeldOrFolded(h, log, l, p);
  }

  /** What was one contact at the start lies in one tree. */
  lemma {:induction false} StartStaysWhole(h: History, log: seq<MergeRow>, t: Tree, x: IdentityId, y: IdentityId)
    requires TreeOk(h, log, t) && SeatedOnce(h) && x in t.Leaves() && SameAtStart(h.start, x, y)
    ensures y in t.Leaves()
  {
    match t
    case Leaf(_) =>
    case Seat(_, _) =>
    case Found(_, _, _) =>
    case Join(_, l, r) => StartStaysWhole(h, log, if x in l.Leaves() then l else r, x, y);
    case Again(_, l) => StartStaysWhole(h, log, l, x, y);
  }

  /** What is seated at one person lies in one tree. */
  lemma {:induction false} SeatsStayWhole(h: History, log: seq<MergeRow>, t: Tree, p: PersonId, x: IdentityId,
                                          y: IdentityId)
    requires TreeOk(h, log, t) && SeatedOnce(h) && x in t.Leaves() && x in SeatedAt(h, p) && y in SeatedAt(h, p)
    ensures y in t.Leaves()
  {
    match t
    case Leaf(_) => assert false;
    case Seat(q, _) => assert p == q;
    case Found(k, _, _) => assert p == log[k].survivor;
    case Join(_, l, r) => SeatsStayWhole(h, log, if x in l.Leaves() then l else r, p, x, y);
    case Again(_, l) => SeatsStayWhole(h, log, l, p, x, y);
  }

  // ---------------------------------------------------------------- adding an identity by hand

  /** One more identity at the person that holds the tree. */
  function Hang(t: Tree, i: IdentityId): Tree {
    match t
    case Leaf(_) => t
    case Seat(p, members) => Seat(p, members + {i})
    case Found(k, ends, seated) => Found(k, ends, seated + {i})
    case Join(k, l, r) => Join(k, Hang(l, i), r)
    case Again(k, l) => Again(k, Hang(l, i))
  }

  function WithAdded(h: History, i: IdentityId, p: PersonId): History {
    h.(added := h.added[i := p])
  }

  /** A tree without the person and the identity does not notice. */
  lemma {:induction false} AddingElsewhere(h: History, log: seq<MergeRow>, t: Tree, i: IdentityId, p: PersonId)
    requires TreeOk(h, log, t) && i !in h.added && i !in t.Leaves() && p !in t.Persons(log)
    ensures TreeOk(WithAdded(h, i, p), log, t)
  {
    match t
    case Leaf(_) =>
    case Seat(q, _) => assert AddedAt(WithAdded(h, i, p), q) == AddedAt(h, q);
    case Found(k, _, _) =>
      assert AddedAt(WithAdded(h, i, p), log[k].survivor) == AddedAt(h, log[k].survivor);
    case Join(_, l, r) =>
      AddingElsewhere(h, log, l, i, p);
      AddingElsewhere(h, log, r, i, p);
    case Again(_, l) => AddingElsewhere(h, log, l, i, p);
  }

  lemma {:induction false} HangingKeepsShape(h: History, log: seq<MergeRow>, t: Tree, i: IdentityId)
    requires !t.Leaf?
    requires TreeOk(h, log, t)
    ensures Hang(t, i).Leaves() == t.Leaves() + {i} && Hang(t, i).Rows() == t.Rows()
    ensures Hang(t, i).Holder(log) == t.Holder(log)
  {
    match t
    case Seat(_, _) =>
    case Found(_, _, _) =>
    case Join(_, l, _) => HangingKeepsShape(h, log, l, i);
    case Again(_, l) => HangingKeepsShape(h, log, l, i);
  }

  lemma {:induction false} HangingIsOk(h: History, log: seq<MergeRow>, t: Tree, i: IdentityId, p: PersonId)
    requires TreeOk(h, log, t) && t.Holder(log) == Some(p)
    requires i !in h.added && i !in h.start.identities && i !in t.Leaves()
    requires forall m :: m in t.Rows() && m < |log| ==> log[m].absorbed != Some(p)
    ensures TreeOk(WithAdded(h, i, p), log, Hang(t, i))
  {
    match t
    case Seat(_, _) => assert AddedAt(WithAdded(h, i, p), p) == AddedAt(h, p) + {i};
    case Found(_, _, _) => assert AddedAt(WithAdded(h, i, p), p) == AddedAt(h, p) + {i};
    case Join(k, l, r) =>
      hide FoundOk, SeatedAt;
      HangingIsOk(h, log, l, i, p);
      HangingKeepsShape(h, log, l, i);
      assert k in t.Rows();
      if p in r.Persons(log) {
        PersonsAreHeldOrFolded(h, log, r, p);
      }
      AddingElsewhere(h, log, r, i, p);
    case Again(_, l) =>
      hide FoundOk, SeatedAt;
      HangingIsOk(h, log, l, i, p);
      HangingKeepsShape(h, log, l, i);
  }

  // ---------------------------------------------------------------- facts about connection

  lemma ConnectedDirectly(h: History, log: seq<MergeRow>, x: IdentityId, y: IdentityId)
    requires x == y || Linked(h, log, x, y)
    ensures Connected(h, log, x, y)
  {
    var chain := if x == y then [x] else [x, y];
    assert IsChain(h, log, chain);
  }

  lemma ConnectedTransitively(h: History, log: seq<MergeRow>, x: IdentityId, y: IdentityId, z: IdentityId)
    requires Connected(h, log, x, y) && Connected(h, log, y, z)
    ensures Connected(h, log, x, z)
  {
    var p :| |p| > 0 && p[0] == x && p[|p| - 1] == y && IsChain(h, log, p);
    var q :| |q| > 0 && q[0] == y && q[|q| - 1] == z && IsChain(h, log, q);
    var chain := p + q[1..];
    forall j | 0 <= j < |chain| - 1 ensures Linked(h, log, chain[j], chain[j + 1]) {
      if j >= |p| - 1 {
        assert chain[j] == q[j - |p| + 1] && chain[j + 1] == q[j - |p| + 2];
      }
    }
    assert chain[|chain| - 1] == if |q| == 1 then p[|p| - 1] else q[|q| - 1];
  }

  lemma {:induction false} TreeConnects(h: History, log: seq<MergeRow>, t: Tree, x: IdentityId, y: IdentityId)
    requires TreeOk(h, log, t) && x in t.Leaves() && y in t.Leaves()
    ensures Connected(h, log, x, y)
  {
    match t
    case Leaf(_) => ConnectedDirectly(h, log, x, y);
    case Seat(_, _) => ConnectedDirectly(h, log, x, y);
    case Found(k, _, _) =>
      assert InForce(h.start, log, k) && x in Reach(h, log[k]) && y in Reach(h, log[k]);
      ConnectedDirectly(h, log, x, y);
    case Again(_, l) => TreeConnects(h, log, l, x, y);
    case Join(k, l, r) =>
      if x in l.Leaves() && y in l.Leaves() {
        TreeConnects(h, log, l, x, y);
      } else if x in r.Leaves() && y in r.Leaves() {
        TreeConnects(h, log, r, x, y);
      } else {
        var near, far := if x in l.Leaves() then l else r, if x in l.Leaves() then r else l;
        var out, back := if log[k].a in near.Leaves() then log[k].a else log[k].b,
                         if log[k].a in near.Leaves() then log[k].b else log[k].a;
        TreeConnects(h, log, near, x, out);
        TreeConnects(h, log, far, back, y);
        assert out in Reach(h, log[k]) && back in Reach(h, log[k]);
        hide Connected, TreeOk;
        ConnectedDirectly(h, log, out, back);
        ConnectedTransitively(h, log, x, out, back);
        ConnectedTransitively(h, log, x, back, y);
      }
  }

  lemma LinkedStaysInside(h: History, s: Store, f: Forest, x: IdentityId, y: IdentityId)
    requires Tracks(h, s, f) && x in s.identities && Linked(h, s.log, x, y)
    ensures y in s.identities && s.KeyOf(y) == s.KeyOf(x)
  {
    var key := s.KeyOf(x);
    assert x in s.Contact(key) && TreeFits(h, s, key, f[key]);
    if SameAtStart(h.start, x, y) {
      StartStaysWhole(h, s.log, f[key], x, y);
    } else if p :| x in SeatedAt(h, p) && y in SeatedAt(h, p) {
      SeatsStayWhole(h, s.log, f[key], p, x, y);
    } else {
      var k :| InForce(h.start, s.log, k) && x in Reach(h, s.log[k]) && y in Reach(h, s.log[k]);
      RowStaysInside(h, s, f, k);
    }
  }

  /** All that a row in force reaches is one contact. */
  lemma RowStaysInside(h: History, s: Store, f: Forest, k: nat)
    requires Tracks(h, s, f) && InForce(h.start, s.log, k)
    ensures s.log[k].a in s.identities && Reach(h, s.log[k]) <= s.Contact(s.KeyOf(s.log[k].a))
  {
    RowsInside(h, s.log, f[s.KeyOf(s.log[k].a)], k);
  }

  lemma {:induction false} ChainStaysInside(h: History, s: Store, f: Forest, chain: seq<IdentityId>)
    requires Tracks(h, s, f) && |chain| > 0 && chain[0] in s.identities && IsChain(h, s.log, chain)
    ensures chain[|chain| - 1] in s.identities && s.KeyOf(chain[|chain| - 1]) == s.KeyOf(chain[0])
    decreases |chain|
  {
    if |chain| > 1 {
      assert Linked(h, s.log, chain[0], chain[0 + 1]);
      LinkedStaysInside(h, s, f, chain[0], chain[1]);
      var rest := chain[1..];
      forall j | 0 <= j < |rest| - 1 ensures Linked(h, s.log, rest[j], rest[j + 1]) {
        assert Linked(h, s.log, chain[j + 1], chain[j + 1 + 1]);
      }
      ChainStaysInside(h, s, f, rest);
    }
  }

  lemma TrackedPartitionIsClosure(h: History, s: Store, f: Forest, x: IdentityId, y: IdentityId)
    requires Tracks(h, s, f) && x in s.identities && y in s.identities
    ensures s.KeyOf(x) == s.KeyOf(y) <==> Connected(h, s.log, x, y)
  {
    if s.KeyOf(x) == s.KeyOf(y) {
      var key := s.KeyOf(x);
      assert x in s.Contact(key) && y in s.Contact(key);
      TreeConnects(h, s.log, f[key], x, y);
    }
    if Connected(h, s.log, x, y) {
      var chain :| |chain| > 0 && chain[0] == x && chain[|chain| - 1] == y && IsChain(h, s.log, chain);
      ChainStaysInside(h, s, f, chain);
    }
  }
}
