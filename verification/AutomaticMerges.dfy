/**
  What the safety checks guarantee over whole runs of automatic merging: no contact grows past the
  limit and no contact ever shows two contradicting names, although a check only sees one pair.
 */
module AutomaticMerges {
  import opened Text
  import opened Wrappers
  import opened StoreModel
  import opened SafetyChecks
  import opened Runs
  import opened PersonForest
  import opened LinkClosure
  import opened TreeUpkeep
  import opened GraftedTrees
  import opened SplitTrees
  import opened ClosureRuns

  ghost predicate NoContradiction(s: Store) {
    forall i, j :: i in s.identities && j in s.identities && s.KeyOf(i) == s.KeyOf(j) ==>
      !NamesContradict(s.identities[i].displayName, s.identities[j].displayName)
  }

  ghost predicate Bounded(s: Store) {
    forall i :: i in s.identities ==> |s.Contact(s.KeyOf(i))| <= MAX_CLUSTER_SIZE
  }

  ghost predicate Safe(s: Store) {
    Bounded(s) && NoContradiction(s)
  }

  /** A name that contradicts none of those the identity's contact shows already. */
  predicate NameFits(s: Store, i: IdentityId, name: string) {
    i in s.identities ==> forall j :: j in s.Contact(s.KeyOf(i)) ==>
      !NamesContradict(Some(name), s.identities[j].displayName)
  }

  /** Nobody but the automatic rules merges, undos are careful, and names filled in fit. */
  predicate AutomaticEvent(start: Store, s: Store, e: Event) {
    || e.Arrive? || e.Propose? || e.Queue? || e.Reject? || e.RenameContact?
    || (e.Undo? && CarefulEvent(start, s, e))
    || (e.FillName? && NameFits(s, e.i, e.name))
  }

  predicate AutomaticRun(start: Store, s: Store, run: seq<Event>)
    requires IsRun(s, run)
    decreases |run|
  {
    run != [] ==> AutomaticEvent(start, s, run[0]) && AutomaticRun(start, Step(s, run[0]), run[1..])
  }

  // ---------------------------------------------------------------- single steps

  /** The size the check computes is the size of the contact the merge then builds. */
  lemma PredictedSizeIsExact(s: Store, a: IdentityId, b: IdentityId, rule: string, kind: string, newPerson: PersonId,
                             names: Names)
    requires Sound(s) && a in s.identities && b in s.identities && newPerson !in s.persons
    ensures var t := Merged(s, a, b, rule, kind, newPerson, names);
      t.Contact(t.KeyOf(a)) == t.Contact(t.KeyOf(b)) == Joined(s, a, b)
  {
    MergedContacts(s, a, b, rule, kind, newPerson, names);
    MergedKey(s, a, b, rule, kind, newPerson, names, a);
    MergedKey(s, a, b, rule, kind, newPerson, names, b);
  }

  lemma MergeKeepsBounded(s: Store, a: IdentityId, b: IdentityId, rule: string, kind: string, newPerson: PersonId,
                          names: Names)
    requires Sound(s) && Bounded(s) && a in s.identities && b in s.identities && newPerson !in s.persons
    requires |Joined(s, a, b)| <= MAX_CLUSTER_SIZE
    ensures Bounded(Merged(s, a, b, rule, kind, newPerson, names))
  {
    hide Sound, Joined;
    var t := Merged(s, a, b, rule, kind, newPerson, names);
    MergedContacts(s, a, b, rule, kind, newPerson, names);
    forall i | i in t.identities ensures |t.Contact(t.KeyOf(i))| <= MAX_CLUSTER_SIZE {
      MergedKey(s, a, b, rule, kind, newPerson, names, i);
    }
  }

  lemma MergeKeepsNoContradiction(s: Store, a: IdentityId, b: IdentityId, rule: string, kind: string,
                                  newPerson: PersonId, names: Names)
    requires ForeignKeys(s) && NoContradiction(s) && a in s.identities && b in s.identities && newPerson !in s.persons
    requires !ContactsContradict(s, a, b)
    ensures NoContradiction(Merged(s, a, b, rule, kind, newPerson, names))
  {
    var t := Merged(s, a, b, rule, kind, newPerson, names);
    NewSurvivorHoldsNobody(s, a, b, newPerson);
    forall i, j | i in t.identities && j in t.identities && t.KeyOf(i) == t.KeyOf(j)
      ensures !NamesContradict(t.identities[i].displayName, t.identities[j].displayName)
    {
      MergedKey(s, a, b, rule, kind, newPerson, names, i);
      MergedKey(s, a, b, rule, kind, newPerson, names, j);
      assert i in s.Contact(s.KeyOf(i)) && j in s.Contact(s.KeyOf(j));
      assert t.identities[i].displayName == s.identities[i].displayName;
      assert t.identities[j].displayName == s.identities[j].displayName;
    }
  }

  /** A careful undo separates; it never brings two identities together. */
  lemma UndoOnlySeparates(h: History, s: Store, f: Forest, k: nat, i: IdentityId, j: IdentityId)
    requires Sound(s) && Tracks(h, s, f) && CarefulUndo(h.start, s, k) && i in s.identities && j in s.identities
    requires Unmerged(s, k).KeyOf(i) == Unmerged(s, k).KeyOf(j)
    ensures s.KeyOf(i) == s.KeyOf(j)
  {
    UndoneRowIsRoot(h, s, f, k);
    RootRow(h, s, f, k);
    assert i in s.Contact(s.KeyOf(i)) && j in s.Contact(s.KeyOf(j));
  }

  lemma UndoKeepsSafe(h: History, s: Store, f: Forest, k: nat)
    requires Sound(s) && Tracks(h, s, f) && CarefulUndo(h.start, s, k) && Safe(s)
    ensures Safe(Unmerged(s, k))
  {
    hide Sound, Tracks, NamesContradict;
    var t := Unmerged(s, k);
    forall i, j | i in t.identities && j in t.identities && t.KeyOf(i) == t.KeyOf(j)
      ensures s.KeyOf(i) == s.KeyOf(j)
    {
      UndoOnlySeparates(h, s, f, k, i, j);
    }
    forall i | i in t.identities ensures |t.Contact(t.KeyOf(i))| <= MAX_CLUSTER_SIZE {
      assert t.Contact(t.KeyOf(i)) <= s.Contact(s.KeyOf(i));
      SubsetIsSmaller(t.Contact(t.KeyOf(i)), s.Contact(s.KeyOf(i)));
    }
  }

  lemma {:induction false} SubsetIsSmaller<T>(small: set<T>, large: set<T>)
    requires small <= large
    ensures |small| <= |large|
    decreases small
  {
    if small != {} {
      var x :| x in small;
      SubsetIsSmaller(small - {x}, large - {x});
    }
  }

  lemma ArriveKeepsSafe(s: Store, i: IdentityId, record: Identity)
    requires Safe(s) && i !in s.identities && record.personId == None
    ensures Safe(s.(identities := s.identities[i := record]))
  {
    var t := s.(identities := s.identities[i := record]);
    forall j | j in t.identities ensures |t.Contact(t.KeyOf(j))| <= MAX_CLUSTER_SIZE {
      if j == i {
        assert t.Contact(IdentityKey(i)) == {i} by {
          assert i in t.Contact(IdentityKey(i));
        }
      } else {
        assert t.Contact(t.KeyOf(j)) == s.Contact(s.KeyOf(j));
      }
    }
  }

  // ---------------------------------------------------------------- names that change

  lemma NameAgreesWithItself(name: string)
    ensures !NamesContradict(Some(name), Some(name))
  {
    if Tokens(name) != {} {
      var token :| token in Tokens(name);
    }
  }

  lemma ContradictionIsSymmetric(x: Option<string>, y: Option<string>)
    ensures NamesContradict(x, y) == NamesContradict(y, x)
  {
  }

  lemma NamesKeepContacts(s: Store, t: Store)
    requires t.identities.Keys == s.identities.Keys
    requires forall i :: i in s.identities ==> t.identities[i].personId == s.identities[i].personId
    ensures forall i :: i in s.identities ==> t.KeyOf(i) == s.KeyOf(i)
    ensures forall key :: t.Contact(key) == s.Contact(key)
  {
  }

  /**
    Filling in a missing name is not checked by the code. It leaves every contact free of
    contradicting names exactly when the name contradicts none its contact shows.
   */
  lemma FilledNameIsSafeIff(s: Store, i: IdentityId, name: string)
    requires NoContradiction(s) && i in s.identities && s.identities[i].displayName == None
    ensures NoContradiction(NameFilled(s, i, name)) <==> NameFits(s, i, name)
  {
    var t := NameFilled(s, i, name);
    NamesKeepContacts(s, t);
    NameAgreesWithItself(name);
    hide NamesContradict;
    assert i in s.Contact(s.KeyOf(i));
    forall j | j in s.Contact(s.KeyOf(i))
      ensures NamesContradict(Some(name), s.identities[j].displayName) ==> j != i && t.KeyOf(j) == t.KeyOf(i)
      ensures NamesContradict(Some(name), s.identities[j].displayName) ==
        NamesContradict(s.identities[j].displayName, Some(name))
    {
      ContradictionIsSymmetric(Some(name), s.identities[j].displayName);
      NoNameNoContradiction(Some(name));
    }
    if NameFits(s, i, name) {
      forall x, y | x in t.identities && y in t.identities && t.KeyOf(x) == t.KeyOf(y)
        ensures !NamesContradict(t.identities[x].displayName, t.identities[y].displayName)
      {
        assert x in s.Contact(s.KeyOf(x)) && y in s.Contact(s.KeyOf(x));
      }
    }
    if NoContradiction(t) {
      forall j | j in s.Contact(s.KeyOf(i)) ensures !NamesContradict(Some(name), s.identities[j].displayName) {
        assert j != i ==> t.identities[j].displayName == s.identities[j].displayName;
      }
    }
  }

  lemma NoNameNoContradiction(x: Option<string>)
    ensures !NamesContradict(x, None) && !NamesContradict(None, x)
  {
  }

  lemma FilledNameKeepsSafe(s: Store, i: IdentityId, name: string)
    requires Safe(s) && NameFits(s, i, name)
    ensures Safe(NameFilled(s, i, name))
  {
    if i in s.identities && s.identities[i].displayName == None {
      FilledNameIsSafeIff(s, i, name);
      NamesKeepContacts(s, NameFilled(s, i, name));
    }
  }

  /** One name for the whole contact contradicts nothing in it. */
  lemma RenamingKeepsSafe(s: Store, key: ContactKey, name: string)
    requires Safe(s)
    ensures Safe(ContactRenamed(s, key, name))
  {
    var t := ContactRenamed(s, key, name);
    NamesKeepContacts(s, t);
    NameAgreesWithItself(name);
    hide NamesContradict;
    forall i, j | i in t.identities && j in t.identities && t.KeyOf(i) == t.KeyOf(j)
      ensures !NamesContradict(t.identities[i].displayName, t.identities[j].displayName)
    {
      assert s.KeyOf(i) == s.KeyOf(j);
    }
  }

  lemma StepKeepsSafe(h: History, s: Store, f: Forest, e: Event)
    requires Sound(s) && Tracks(h, s, f) && Safe(s)
    requires Possible(s, e) && AutomaticEvent(h.start, s, e)
    ensures Safe(Step(s, e))
  {
    hide Sound, Tracks, Merged, Unmerged, Joined, ContactsContradict, Safe, NameFilled, ContactRenamed;
    match e
    case Arrive(i, record) => ArriveKeepsSafe(s, i, record);
    case Undo(k) =>
      if AcceptsUndo(s, k) {
        UndoKeepsSafe(h, s, f, k);
      }
    case Propose(a, b, rule, blocked, newPerson, names) =>
      var queued := Appended(s, Candidate(a, b, rule, AutomaticStatus(s, a, b, blocked)));
      SameContactsAreSafe(s, queued, a, b);
      SameTablesKeepSound(s, queued);
      if AutomaticStatus(s, a, b, blocked) == Confirmed {
        SoundMergeKeepsSafe(queued, a, b, rule, newPerson, names);
      }
    case Queue(a, b, _) => SameContactsAreSafe(s, Step(s, e), a, b);
    case Reject(c) =>
      if c < |s.candidates| {
        SameTablesAreSafe(s, Step(s, e));
      }
    case FillName(i, name) => FilledNameKeepsSafe(s, i, name);
    case RenameContact(key, name) => RenamingKeepsSafe(s, key, name);
  }

  lemma SoundMergeKeepsSafe(s: Store, a: IdentityId, b: IdentityId, rule: string, newPerson: PersonId, names: Names)
    requires Sound(s) && Safe(s) && a in s.identities && b in s.identities && newPerson !in s.persons
    requires !ContactsContradict(s, a, b) && |Joined(s, a, b)| <= MAX_CLUSTER_SIZE
    ensures Safe(Merged(s, a, b, rule, "automatic", newPerson, names))
  {
    hide ContactsContradict, Joined;
    MergeKeepsBounded(s, a, b, rule, "automatic", newPerson, names);
    MergeKeepsNoContradiction(s, a, b, rule, "automatic", newPerson, names);
  }

  lemma SameTablesAreSafe(s: Store, t: Store)
    requires Safe(s) && t.identities == s.identities
    ensures Safe(t)
  {
    assert forall key :: t.Contact(key) == s.Contact(key);
  }

  lemma SameContactsAreSafe(s: Store, t: Store, a: IdentityId, b: IdentityId)
    requires Safe(s) && t.identities == s.identities && a in s.identities && b in s.identities
    ensures Safe(t) && Joined(t, a, b) == Joined(s, a, b)
    ensures ContactsContradict(t, a, b) == ContactsContradict(s, a, b)
  {
    SameTablesAreSafe(s, t);
    hide Safe;
    SameContact(s, t, a);
    SameContact(s, t, b);
    hide NamesContradict, Store.Contact;
  }

  lemma SameContact(s: Store, t: Store, i: IdentityId)
    requires t.identities == s.identities && i in s.identities
    ensures t.Contact(t.KeyOf(i)) == s.Contact(s.KeyOf(i))
  {
  }

  // ---------------------------------------------------------------- whole runs

  lemma UnresolvedIsSafe(s: Store)
    requires forall i :: i in s.identities ==> s.identities[i].personId == None
    ensures Safe(s)
  {
    forall i | i in s.identities ensures |s.Contact(s.KeyOf(i))| <= MAX_CLUSTER_SIZE {
      assert s.Contact(IdentityKey(i)) == {i};
    }
  }

  lemma {:induction false} RunKeepsSafe(h: History, s: Store, f: Forest, run: seq<Event>)
    requires Sound(s) && Tracks(h, s, f) && Safe(s)
    requires IsRun(s, run) && AutomaticRun(h.start, s, run)
    ensures Safe(Final(s, run))
    decreases |run|
  {
    hide Sound, Tracks, Safe;
    if run != [] {
      StepKeepsSound(s, run[0]);
      StepKeepsSafe(h, s, f, run[0]);
      var g := StepTracks(h, s, f, run[0]);
      RunKeepsSafe(HistoryAfter(h, s, run[0]), Step(s, run[0]), g, run[1..]);
    }
  }

  /**
    From unresolved identities, over any run of automatic proposals, queued proposals, rejections,
    new arrivals, careful undos, renamed contacts and missing names filled in by fitting ones: every
    contact has at most eight identities, and no two display names within one contact contradict
    each other.
   */
  lemma AutomaticContactsAreSafe(start: Store, run: seq<Event>)
    requires Sound(start) && forall i :: i in start.identities ==> start.identities[i].personId == None
    requires IsRun(start, run) && AutomaticRun(start, start, run)
    ensures var t := Final(start, run);
      && (forall i :: i in t.identities ==> |t.Contact(t.KeyOf(i))| <= 8)
      && (forall i, j :: i in t.identities && j in t.identities && t.KeyOf(i) == t.KeyOf(j) ==>
           !NamesContradict(t.identities[i].displayName, t.identities[j].displayName))
  {
    UnresolvedIsSafe(start);
    var f := ForestAtStart(start);
    RunKeepsSafe(History(start, map[]), start, f, run);
  }

  /** Why a pairwise check is not enough by itself: not contradicting is not transitive. */
  lemma ContradictionIsNotTransitive()
    ensures !NamesContradict(Some("a"), Some("a b")) && !NamesContradict(Some("a b"), Some("b"))
    ensures NamesContradict(Some("a"), Some("b"))
  {
    assert TokensFrom("", "a") == {"a"} && TokensFrom("", "b") == {"b"};
    assert "a"[1..] == "" && "b"[1..] == "" && [] + ['a'] == "a" && [] + ['b'] == "b";
    assert Tokens("a") == TokensFrom("a"[1..], [] + [LowerChar('a')]) == {"a"};
    assert Tokens("b") == TokensFrom("b"[1..], [] + [LowerChar('b')]) == {"b"};
    assert "a b"[1..] == " b" && " b"[1..] == "b";
    assert Tokens("a b") == TokensFrom("a b"[1..], [] + [LowerChar('a')]) == TokensFrom(" b", "a");
    assert TokensFrom(" b", "a") == {"a"} + TokensFrom("b", []);
    assert "a" in Tokens("a b") && "b" in Tokens("a b");
  }

  const LATE: Store := Store(map[0 := Identity("outlook", "x", None, None, false),
                                 1 := Identity("whatsapp", "y", Some("a"), None, false)], map[], [], [])

  const LATE_RUN := [Propose(0, 1, "r", false, 10, Names("a", None)), FillName(0, "b")]

  lemma OneLetterNamesContradict()
    ensures NamesContradict(Some("b"), Some("a"))
  {
    assert TokensFrom("", "a") == {"a"} && TokensFrom("", "b") == {"b"};
    assert "a"[1..] == "" && "b"[1..] == "" && [] + ['a'] == "a" && [] + ['b'] == "b";
    assert Tokens("a") == TokensFrom("a"[1..], [] + [LowerChar('a')]) == {"a"};
    assert Tokens("b") == TokensFrom("b"[1..], [] + [LowerChar('b')]) == {"b"};
  }

  lemma LateMergeIsAutomatic()
    ensures Sound(LATE) && Joined(LATE, 0, 1) == {0, 1} && AutomaticStatus(LATE, 0, 1, false) == Confirmed
  {
    assert RanksDown(LATE.persons, map[]);
    assert LATE.Contact(IdentityKey(0)) == {0} && LATE.Contact(IdentityKey(1)) == {1};
    assert Joined(LATE, 0, 1) == {0, 1};
    hide NamesContradict, Sound;
    NoNameNoContradiction(Some("a"));
  }

  /** What one unnamed and one named identity become when a rule proposes them. */
  lemma LateMerge()
    ensures Sound(LATE) && Possible(LATE, LATE_RUN[0])
    ensures var t := Step(LATE, LATE_RUN[0]);
      && t.identities.Keys == {0, 1} && t.identities[0].personId == Some(10) && t.identities[1].personId == Some(10)
      && t.identities[0].displayName == None && t.identities[1].displayName == Some("a")
  {
    LateMergeIsAutomatic();
    hide AutomaticStatus, Sound, Joined, Moved, MergedPerson;
    assert !IsSpace("r"[0]);
    var queued := Appended(LATE, Candidate(0, 1, "r", Confirmed));
    assert Joined(queued, 0, 1) == Joined(LATE, 0, 1) by {
      SameJoined(LATE, queued, 0, 1);
    }
  }

  lemma SameJoined(s: Store, t: Store, a: IdentityId, b: IdentityId)
    requires t.identities == s.identities && a in s.identities && b in s.identities
    ensures Joined(t, a, b) == Joined(s, a, b)
  {
    assert forall key :: t.Contact(key) == s.Contact(key);
  }

  lemma RunOfTwo(s: Store, run: seq<Event>)
    requires |run| == 2 && Possible(s, run[0]) && Possible(Step(s, run[0]), run[1])
    ensures IsRun(s, run) && Final(s, run) == Step(Step(s, run[0]), run[1])
  {
    hide Step, Possible;
    var t := Step(Step(s, run[0]), run[1]);
    assert IsRun(t, []) && Final(t, []) == t;
    assert run[1..][1..] == [];
    assert IsRun(Step(s, run[0]), run[1..]) && Final(Step(s, run[0]), run[1..]) == t;
  }

  /** The automatic merge saw no name to contradict; the name that arrives later does. */
  lemma LateNameContradicts()
    ensures Sound(LATE) && IsRun(LATE, LATE_RUN)
    ensures var t := Final(LATE, LATE_RUN);
      && 0 in t.identities && 1 in t.identities && t.KeyOf(0) == t.KeyOf(1)
      && NamesContradict(t.identities[0].displayName, t.identities[1].displayName)
  {
    hide NamesContradict, Sound, Proposed;
    OneLetterNamesContradict();
    LateMerge();
    var mid := Step(LATE, LATE_RUN[0]);
    assert Step(mid, LATE_RUN[1]) == NameFilled(mid, 0, "b");
    hide Step;
    RunOfTwo(LATE, LATE_RUN);
  }
}
