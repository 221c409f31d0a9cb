/** Reading the merge trees of LinkClosure, and keeping them in step with arrivals and added handles. */
module TreeUpkeep {
  import opened Wrappers
  import opened StoreModel
  import opened Runs
  import opened PersonForest
  import opened LinkClosure

  function Keys(s: Store): set<ContactKey> {
    set i | i in s.identities :: s.KeyOf(i)
  }

  lemma ForestAtStart(start: Store) returns (f: Forest)
    requires Sound(start)
    ensures Tracks(History(start, map[]), start, f)
  {
    var h := History(start, map[]);
    f := map key | key in Keys(start) ::
      match key case IdentityKey(i) => Leaf(i) case PersonKey(p) => Seat(p, start.Contact(key));
    assert forall p :: AddedAt(h, p) == {};
    forall key | key in f ensures TreeFits(h, start, key, f[key]) {
      var i :| i in start.identities && start.KeyOf(i) == key;
      assert i in start.Contact(key);
    }
  }

  /** Neither who is at which person nor the log differs; names and candidates may. */
  ghost predicate SameContacts(s: Store, t: Store) {
    && t.persons == s.persons && t.log == s.log && t.identities.Keys == s.identities.Keys
    && forall i :: i in s.identities ==> t.identities[i].personId == s.identities[i].personId
  }

  lemma SameContactsTrack(h: History, s: Store, t: Store, f: Forest)
    requires Tracks(h, s, f) && SameContacts(s, t)
    ensures Tracks(h, t, f)
  {
    hide TreeOk;
    assert forall i :: i in s.identities ==> t.KeyOf(i) == s.KeyOf(i);
    assert forall key :: t.Contact(key) == s.Contact(key);
    forall key | key in f ensures TreeFits(h, t, key, f[key]) {
      assert TreeFits(h, s, key, f[key]);
    }
    hide TreeFits;
    forall k | InForce(h.start, t.log, k)
      ensures t.log[k].a in t.identities && t.KeyOf(t.log[k].a) in f && k in f[t.KeyOf(t.log[k].a)].Rows()
    {
      assert InForce(h.start, s.log, k);
    }
  }

  lemma ArriveFits(h: History, s: Store, f: Forest, i: IdentityId, record: Identity, key: ContactKey)
    requires Tracks(h, s, f) && i !in s.identities && record.personId == None && key in f
    ensures TreeFits(h, s.(identities := s.identities[i := record]), key, f[key]) && key != IdentityKey(i)
  {
    hide Covered, AbsorbedOnce, HistoryFits, TreeOk;
    var t := s.(identities := s.identities[i := record]);
    LeavesNonempty(h, s.log, f[key]);
    assert t.Contact(key) == s.Contact(key);
  }

  lemma ArriveTracks(h: History, s: Store, f: Forest, i: IdentityId, record: Identity) returns (g: Forest)
    requires Tracks(h, s, f) && i !in s.identities && record.personId == None
    ensures Tracks(h, s.(identities := s.identities[i := record]), g)
  {
    var t := s.(identities := s.identities[i := record]);
    g := f[IdentityKey(i) := Leaf(i)];
    assert t.Contact(IdentityKey(i)) == {i} by {
      assert i in t.Contact(IdentityKey(i));
    }
    assert TreeFits(h, t, IdentityKey(i), Leaf(i));
    hide TreeFits, Covered, AbsorbedOnce;
    forall key | key in g ensures TreeFits(h, t, key, g[key]) {
      if key != IdentityKey(i) {
        ArriveFits(h, s, f, i, record, key);
      }
    }
    ArriveCovers(h, s, f, i, record);
  }

  lemma ArriveCovers(h: History, s: Store, f: Forest, i: IdentityId, record: Identity)
    requires Tracks(h, s, f) && i !in s.identities && record.personId == None
    ensures var t := s.(identities := s.identities[i := record]);
      Covered(h.start, t, f[IdentityKey(i) := Leaf(i)]) && AbsorbedOnce(h.start, t)
  {
    hide TreeFits;
    var t := s.(identities := s.identities[i := record]);
    assert forall x :: x in s.identities ==> t.KeyOf(x) == s.KeyOf(x);
    forall k | InForce(h.start, t.log, k)
      ensures t.log[k].a in s.identities && s.KeyOf(t.log[k].a) in f && k in f[s.KeyOf(t.log[k].a)].Rows()
    {
      assert InForce(h.start, s.log, k);
    }
  }

  // ---------------------------------------------------------------- reading the forest

  lemma FitsAt(h: History, s: Store, f: Forest, key: ContactKey)
    requires Tracks(h, s, f) && key in f
    ensures TreeFits(h, s, key, f[key])
  {
  }

  /** The tree of an identity's contact; an unresolved identity is a leaf that is seated nowhere. */
  lemma TreeOf(h: History, s: Store, f: Forest, i: IdentityId)
    requires Tracks(h, s, f) && i in s.identities
    ensures s.KeyOf(i) in f && TreeFits(h, s, s.KeyOf(i), f[s.KeyOf(i)])
    ensures i in s.Contact(s.KeyOf(i)) && i in f[s.KeyOf(i)].Leaves()
    ensures s.identities[i].personId == None ==> f[s.KeyOf(i)] == Leaf(i) && Bare(h, i)
  {
    FitsAt(h, s, f, s.KeyOf(i));
    hide Tracks;
    assert i in s.Contact(s.KeyOf(i));
  }

  lemma TreeIsOlder(h: History, log: seq<MergeRow>, t: Tree)
    requires TreeOk(h, log, t)
    ensures RowsBelow(t, |log|)
  {
    hide TreeOk;
    forall m | m in t.Rows() ensures m < |log| {
      RowsInside(h, log, t, m);
    }
  }

  lemma TracksIf(h: History, s: Store, f: Forest)
    requires HistoryFits(h, s) && Covered(h.start, s, f) && AbsorbedOnce(h.start, s)
    requires forall i :: i in s.identities ==> s.KeyOf(i) in f
    requires forall key :: key in f ==> TreeFits(h, s, key, f[key])
    ensures Tracks(h, s, f)
  {
  }

  // ---------------------------------------------------------------- adding an identity by hand

  /** A standing person is in no tree but the one it holds. */
  lemma PersonElsewhere(h: History, s: Store, f: Forest, key: ContactKey, p: PersonId)
    requires Sound(s) && Tracks(h, s, f) && key in f && key != PersonKey(p)
    requires s.IsRoot(p) || p !in s.persons
    ensures p !in f[key].Persons(s.log)
    ensures forall m :: m in f[key].Rows() ==> m < |s.log| && s.log[m].absorbed != Some(p)
  {
    var t := f[key];
    assert TreeFits(h, s, key, t);
    forall m | m in t.Rows() ensures m < |s.log| && s.log[m].absorbed != Some(p) {
      RowsInside(h, s.log, t, m);
      assert RowReferences(s, s.log[m]);
    }
    if p in t.Persons(s.log) {
      PersonsAreHeldOrFolded(h, s.log, t, p);
      assert false;
    }
  }

  lemma HolderIsNotAbsorbed(h: History, s: Store, f: Forest, p: PersonId)
    requires Tracks(h, s, f) && PersonKey(p) in f && s.IsRoot(p)
    ensures forall m :: m in f[PersonKey(p)].Rows() && m < |s.log| ==> s.log[m].absorbed != Some(p)
  {
    var t := f[PersonKey(p)];
    assert TreeFits(h, s, PersonKey(p), t);
    forall m | m in t.Rows() && m < |s.log| ensures s.log[m].absorbed != Some(p) {
      RowsInside(h, s.log, t, m);
    }
  }

  lemma AddedContacts(s: Store, rep: IdentityId, i: IdentityId, channel: string, handle: string, newPerson: PersonId)
    requires ForeignKeys(s) && rep in s.identities && i !in s.identities && newPerson !in s.persons
    ensures var (t, own) := (AddedHandle(s, rep, i, channel, handle, newPerson), s.KeyOf(rep));
      && (own.PersonKey? ==> t.Contact(own) == s.Contact(own) + {i})
      && (own.IdentityKey? ==> t.Contact(own) == {} && t.Contact(PersonKey(newPerson)) == {rep, i})
      && (forall key :: key != own && key != PersonKey(newPerson) ==> t.Contact(key) == s.Contact(key))
      && (own.PersonKey? ==> t.Contact(PersonKey(newPerson)) == s.Contact(PersonKey(newPerson)))
      && (forall x :: x in s.identities && x != rep ==> t.KeyOf(x) == s.KeyOf(x))
  {
    var t := AddedHandle(s, rep, i, channel, handle, newPerson);
    assert rep in s.Contact(s.KeyOf(rep));
    if s.KeyOf(rep).IdentityKey? {
      assert forall x :: x in s.Contact(s.KeyOf(rep)) ==> x == rep;
    }
  }

  lemma AddedShape(s: Store, rep: IdentityId, i: IdentityId, channel: string, handle: string, newPerson: PersonId)
    requires rep in s.identities && i !in s.identities && newPerson !in s.persons
    ensures var (t, person) := (AddedHandle(s, rep, i, channel, handle, newPerson), s.identities[rep].personId);
      && t.log == s.log && t.candidates == s.candidates
      && t.identities.Keys == s.identities.Keys + {i}
      && t.persons.Keys == s.persons.Keys + (if person.Some? then {} else {newPerson})
      && (forall p :: p in s.persons ==> t.persons[p] == s.persons[p])
      && t.KeyOf(i) == t.KeyOf(rep) == (if person.Some? then s.KeyOf(rep) else PersonKey(newPerson))
  {
  }

  /** The new identity joins a person there is already. */
  lemma AddToPersonTracks(h: History, s: Store, f: Forest, rep: IdentityId, i: IdentityId, channel: string,
                          handle: string, newPerson: PersonId)
    requires Sound(s) && Tracks(h, s, f) && rep in s.identities && i !in s.identities && newPerson !in s.persons
    requires s.identities[rep].personId.Some?
    ensures var p := s.identities[rep].personId.value;
      && PersonKey(p) in f
      && Tracks(WithAdded(h, i, p), AddedHandle(s, rep, i, channel, handle, newPerson),
                f[PersonKey(p) := Hang(f[PersonKey(p)], i)])
  {
    var p := s.identities[rep].personId.value;
    HungTreeFits(h, s, f, rep, i, channel, handle, newPerson);
    AddToPersonFits(h, s, f, rep, i, channel, handle, newPerson);
    AddToPersonCovers(h, s, f, rep, i, channel, handle, newPerson);
    AddedShape(s, rep, i, channel, handle, newPerson);
    assert HistoryFits(h, s) && p in s.persons && s.KeyOf(rep) == PersonKey(p);
    hide TreeFits, HistoryFits, Sound, Hang, AddedHandle, Covered, AbsorbedOnce, Tracks;
    var t := AddedHandle(s, rep, i, channel, handle, newPerson);
    AddingFits(h, s, i, p, t);
    TracksIf(WithAdded(h, i, p), t, f[PersonKey(p) := Hang(f[PersonKey(p)], i)]);
  }

  lemma AddToPersonCovers(h: History, s: Store, f: Forest, rep: IdentityId, i: IdentityId, channel: string,
                          handle: string, newPerson: PersonId)
    requires Sound(s) && Tracks(h, s, f) && rep in s.identities && i !in s.identities && newPerson !in s.persons
    requires s.identities[rep].personId.Some? && s.KeyOf(rep) in f
    requires Hang(f[s.KeyOf(rep)], i).Rows() == f[s.KeyOf(rep)].Rows()
    ensures var (t, g) := (AddedHandle(s, rep, i, channel, handle, newPerson),
                           f[s.KeyOf(rep) := Hang(f[s.KeyOf(rep)], i)]);
      && (forall x :: x in t.identities ==> t.KeyOf(x) in g)
      && Covered(h.start, t, g) && AbsorbedOnce(h.start, t)
  {
    var t := AddedHandle(s, rep, i, channel, handle, newPerson);
    var g := f[s.KeyOf(rep) := Hang(f[s.KeyOf(rep)], i)];
    AddedContacts(s, rep, i, channel, handle, newPerson);
    AddedShape(s, rep, i, channel, handle, newPerson);
    hide AddedHandle, Hang, TreeFits, HistoryFits;
    assert forall k :: 0 <= k < |s.log| ==> RowReferences(s, s.log[k]);
    hide Sound, Covered, AbsorbedOnce;
    AddingFinds(h, s, f, g, t, rep, i);
    AddingCovers(h.start, s, f, g, t);
  }

  lemma AddToPersonFits(h: History, s: Store, f: Forest, rep: IdentityId, i: IdentityId, channel: string,
                        handle: string, newPerson: PersonId)
    requires Sound(s) && Tracks(h, s, f) && rep in s.identities && i !in s.identities && newPerson !in s.persons
    requires s.identities[rep].personId.Some?
    ensures var p := s.identities[rep].personId.value;
      forall key :: key in f && key != PersonKey(p) ==>
        TreeFits(WithAdded(h, i, p), AddedHandle(s, rep, i, channel, handle, newPerson), key, f[key])
  {
    var p := s.identities[rep].personId.value;
    var t := AddedHandle(s, rep, i, channel, handle, newPerson);
    AddedContacts(s, rep, i, channel, handle, newPerson);
    assert s.IsRoot(p);
    hide Sound, TreeFits, Tracks, WithAdded;
    forall key | key in f && key != PersonKey(p) ensures TreeFits(WithAdded(h, i, p), t, key, f[key]) {
      assert t.Contact(key) == s.Contact(key);
      OtherTreeKeepsOut(h, s, f, key, i, p, t);
    }
  }

  lemma HungTreeFits(h: History, s: Store, f: Forest, rep: IdentityId, i: IdentityId, channel: string,
                     handle: string, newPerson: PersonId)
    requires Sound(s) && Tracks(h, s, f) && rep in s.identities && i !in s.identities && newPerson !in s.persons
    requires s.identities[rep].personId.Some?
    ensures var p := s.identities[rep].personId.value;
      && s.IsRoot(p) && PersonKey(p) in f && Hang(f[PersonKey(p)], i).Rows() == f[PersonKey(p)].Rows()
      && TreeFits(WithAdded(h, i, p), AddedHandle(s, rep, i, channel, handle, newPerson), PersonKey(p),
                  Hang(f[PersonKey(p)], i))
  {
    var p := s.identities[rep].personId.value;
    var own := PersonKey(p);
    assert s.KeyOf(rep) == own && TreeFits(h, s, own, f[own]) && i !in s.Contact(own);
    hide Covered, AbsorbedOnce;
    HolderIsNotAbsorbed(h, s, f, p);
    HangingIsOk(h, s.log, f[own], i, p);
    HangingKeepsShape(h, s.log, f[own], i);
    AddedContacts(s, rep, i, channel, handle, newPerson);
    hide TreeOk, Hang;
  }

  lemma AddingFits(h: History, s: Store, i: IdentityId, p: PersonId, t: Store)
    requires HistoryFits(h, s) && p in t.persons && i in t.identities && t.log == s.log
    requires s.identities.Keys <= t.identities.Keys && s.persons.Keys <= t.persons.Keys
    requires i in h.start.identities ==> h.start.identities[i].personId == None
    ensures HistoryFits(WithAdded(h, i, p), t)
  {
    var added := h.added[i := p];
    forall q | q in added.Values ensures q in t.persons {
      var x :| x in added && added[x] == q;
      assert x != i ==> q in h.added.Values;
    }
  }

  lemma OtherTreeKeepsOut(h: History, s: Store, f: Forest, key: ContactKey, i: IdentityId, p: PersonId, t: Store)
    requires Sound(s) && Tracks(h, s, f) && key in f && key != PersonKey(p) && i !in s.identities
    requires s.IsRoot(p) || p !in s.persons
    requires t.log == s.log && t.Contact(key) == s.Contact(key)
    ensures TreeFits(WithAdded(h, i, p), t, key, f[key])
  {
    FitsAt(h, s, f, key);
    FreshElsewhere(h, s, i);
    hide Sound, Tracks;
    PersonElsewhere(h, s, f, key, p);
    AddingElsewhere(h, s.log, f[key], i, p);
  }

  lemma FreshElsewhere(h: History, s: Store, i: IdentityId)
    requires HistoryFits(h, s) && i !in s.identities
    ensures i !in h.added && i !in h.start.identities && forall key :: i !in s.Contact(key)
  {
  }

  /** Where identities that were there before find the rows of their tree. */
  lemma AddingFinds(h: History, s: Store, f: Forest, g: Forest, t: Store, rep: IdentityId, i: IdentityId)
    requires Tracks(h, s, f) && rep in s.identities && s.KeyOf(rep).PersonKey?
    requires s.identities.Keys <= t.identities.Keys && t.KeyOf(rep) == s.KeyOf(rep)
    requires forall x :: x in s.identities && x != rep ==> t.KeyOf(x) == s.KeyOf(x)
    requires s.KeyOf(rep) in f && g == f[s.KeyOf(rep) := Hang(f[s.KeyOf(rep)], i)]
    requires Hang(f[s.KeyOf(rep)], i).Rows() == f[s.KeyOf(rep)].Rows()
    ensures forall x :: x in s.identities ==> t.KeyOf(x) in g && g[t.KeyOf(x)].Rows() == f[s.KeyOf(x)].Rows()
  {
    hide Hang, TreeFits, Covered, AbsorbedOnce, HistoryFits;
  }

  lemma AddingCovers(start: Store, s: Store, f: Forest, g: Forest, t: Store)
    requires Covered(start, s, f) && AbsorbedOnce(start, s) && t.log == s.log
    requires s.identities.Keys <= t.identities.Keys && s.persons.Keys <= t.persons.Keys
    requires forall p :: p in s.persons ==> t.persons[p] == s.persons[p]
    requires forall x :: x in s.identities && s.KeyOf(x) in f && f[s.KeyOf(x)].Rows() != {} ==>
      t.KeyOf(x) in g && g[t.KeyOf(x)].Rows() == f[s.KeyOf(x)].Rows()
    requires forall k :: 0 <= k < |s.log| ==> RowReferences(s, s.log[k])
    ensures Covered(start, t, g) && AbsorbedOnce(start, t)
  {
    forall k | InForce(start, t.log, k)
      ensures t.log[k].a in s.identities && t.KeyOf(t.log[k].a) in g && k in g[t.KeyOf(t.log[k].a)].Rows()
    {
      assert InForce(start, s.log, k);
    }
    forall k | InForce(start, t.log, k) && t.log[k].absorbed.Some? ensures !t.IsRoot(t.log[k].absorbed.value) {
      assert RowReferences(s, s.log[k]);
    }
  }

  /** An unresolved identity and the new one get a person. */
  lemma AddToBareTracks(h: History, s: Store, f: Forest, rep: IdentityId, i: IdentityId, channel: string,
                        handle: string, newPerson: PersonId)
    requires Sound(s) && Tracks(h, s, f) && rep in s.identities && i !in s.identities && newPerson !in s.persons
    requires s.identities[rep].personId == None
    ensures Tracks(WithAdded(WithAdded(h, rep, newPerson), i, newPerson),
                   AddedHandle(s, rep, i, channel, handle, newPerson),
                   (f - {IdentityKey(rep)})[PersonKey(newPerson) := Seat(newPerson, {rep, i})])
  {
    var t := AddedHandle(s, rep, i, channel, handle, newPerson);
    TreeOf(h, s, f, rep);
    AddToBareFits(h, s, f, rep, i, channel, handle, newPerson);
    AddToBareCovers(h, s, f, rep, i, channel, handle, newPerson);
    AddedShape(s, rep, i, channel, handle, newPerson);
    BareSeat(h, s, rep, i, newPerson);
    FreshElsewhere(h, s, i);
    assert HistoryFits(h, s) && (rep in h.start.identities ==> h.start.identities[rep].personId == None);
    hide TreeFits, HistoryFits, Sound, AddedHandle, Covered, AbsorbedOnce, SeatedAt, Bare;
    AddingFits(h, s, rep, newPerson, t);
    AddingFits(WithAdded(h, rep, newPerson), t, i, newPerson, t);
  }

  lemma AddToBareCovers(h: History, s: Store, f: Forest, rep: IdentityId, i: IdentityId, channel: string,
                        handle: string, newPerson: PersonId)
    requires Sound(s) && Tracks(h, s, f) && rep in s.identities && i !in s.identities && newPerson !in s.persons
    requires s.identities[rep].personId == None && f[s.KeyOf(rep)] == Leaf(rep)
    ensures var (t, g) := (AddedHandle(s, rep, i, channel, handle, newPerson),
                           (f - {IdentityKey(rep)})[PersonKey(newPerson) := Seat(newPerson, {rep, i})]);
      && (forall x :: x in t.identities ==> t.KeyOf(x) in g)
      && Covered(h.start, t, g) && AbsorbedOnce(h.start, t)
  {
    var t := AddedHandle(s, rep, i, channel, handle, newPerson);
    var g := (f - {IdentityKey(rep)})[PersonKey(newPerson) := Seat(newPerson, {rep, i})];
    AddedContacts(s, rep, i, channel, handle, newPerson);
    AddedShape(s, rep, i, channel, handle, newPerson);
    FreshPersonHoldsNobody(s, rep, newPerson);
    hide AddedHandle, TreeFits, HistoryFits, Sound, Covered, AbsorbedOnce;
    forall x | x in s.identities && x != rep ensures t.KeyOf(x) in g && g[t.KeyOf(x)] == f[s.KeyOf(x)] {
      assert s.KeyOf(x) != IdentityKey(rep);
    }
    AddingCovers(h.start, s, f, g, t);
  }

  lemma FreshPersonHoldsNobody(s: Store, rep: IdentityId, p: PersonId)
    requires Sound(s) && rep in s.identities && p !in s.persons && s.identities[rep].personId == None
    ensures s.KeyOf(rep) == IdentityKey(rep) && forall x :: x in s.identities ==> s.KeyOf(x) != PersonKey(p)
    ensures forall k :: 0 <= k < |s.log| ==> RowReferences(s, s.log[k])
  {
  }

  lemma AddToBareFits(h: History, s: Store, f: Forest, rep: IdentityId, i: IdentityId, channel: string,
                      handle: string, newPerson: PersonId)
    requires Sound(s) && Tracks(h, s, f) && rep in s.identities && i !in s.identities && newPerson !in s.persons
    requires s.identities[rep].personId == None
    ensures var (t, h2) := (AddedHandle(s, rep, i, channel, handle, newPerson),
                            WithAdded(WithAdded(h, rep, newPerson), i, newPerson));
      && TreeFits(h2, t, PersonKey(newPerson), Seat(newPerson, {rep, i}))
      && forall key :: key in f && key != IdentityKey(rep) ==>
        TreeFits(h2, t, key, f[key]) && key != PersonKey(newPerson)
  {
    var t := AddedHandle(s, rep, i, channel, handle, newPerson);
    TreeOf(h, s, f, rep);
    AddedContacts(s, rep, i, channel, handle, newPerson);
    BareSeat(h, s, rep, i, newPerson);
    hide Sound, Tracks, WithAdded, SeatedAt, Bare;
    var h2 := WithAdded(WithAdded(h, rep, newPerson), i, newPerson);
    assert TreeFits(h2, t, PersonKey(newPerson), Seat(newPerson, {rep, i}));
    hide TreeFits;
    forall key | key in f && key != IdentityKey(rep)
      ensures TreeFits(h2, t, key, f[key]) && key != PersonKey(newPerson)
    {
      assert key != PersonKey(newPerson) ==> t.Contact(key) == s.Contact(key);
      OtherTreeKeepsBothOut(h, s, f, key, rep, i, newPerson, t);
    }
  }

  lemma BareSeat(h: History, s: Store, rep: IdentityId, i: IdentityId, p: PersonId)
    requires HistoryFits(h, s) && i !in s.identities && p !in s.persons && rep in s.identities && Bare(h, rep)
    ensures var h2 := WithAdded(WithAdded(h, rep, p), i, p);
      SeatedAt(h2, p) == {rep, i} && SeatedOnce(h2)
  {
    assert forall x :: x in h.added ==> h.added[x] in h.added.Values;
  }

  lemma OtherTreeKeepsBothOut(h: History, s: Store, f: Forest, key: ContactKey, rep: IdentityId, i: IdentityId,
                              p: PersonId, t: Store)
    requires Sound(s) && Tracks(h, s, f) && key in f && i !in s.identities && p !in s.persons
    requires rep in s.identities && s.identities[rep].personId == None && key != IdentityKey(rep)
    requires t.log == s.log && (key != PersonKey(p) ==> t.Contact(key) == s.Contact(key))
    ensures TreeFits(WithAdded(WithAdded(h, rep, p), i, p), t, key, f[key]) && key != PersonKey(p)
  {
    FitsAt(h, s, f, key);
    LeavesNonempty(h, s.log, f[key]);
    TreeOf(h, s, f, rep);
    FreshElsewhere(h, s, i);
    hide Tracks;
    assert key != PersonKey(p) && rep !in s.Contact(key);
    hide Sound;
    PersonElsewhere(h, s, f, key, p);
    AddingElsewhere(h, s.log, f[key], rep, p);
    AddingElsewhere(WithAdded(h, rep, p), s.log, f[key], i, p);
  }
}
