/**
  A later run of the rules reads its own rows, connections, address book and messages. Whatever it finds
  that an earlier run over the same rows would not have found comes from something the earlier run did
  not read.
 */
module NewMatches {
  import opened Text
  import opened Wrappers
  import opened StoreModel
  import opened SafetyChecks
  import opened Connections
  import opened RuleMatching
  import opened RuleTexts
  import opened RuleRuns

  // ---------------------------------------------------------------- rows of an earlier scan

  /** What is left of a scan without the rows that `seen` does not have. */
  function Kept(order: seq<IdentityId>, seen: seq<IdentityId>): seq<IdentityId> {
    if order == [] then []
    else
      var (rest, last) := (order[..|order| - 1], order[|order| - 1]);
      if last in seen then Kept(rest, seen) + [last] else Kept(rest, seen)
  }

  /** v was read later than w: the identities of w's scan are all in v's, in the same order among themselves. */
  predicate Follows(w: World, v: World) {
    Kept(v.order, w.order) == w.order
  }

  function KeptRows(rows: seq<Row>, seen: seq<IdentityId>): seq<Row> {
    if rows == [] then []
    else
      var (rest, last) := (rows[..|rows| - 1], rows[|rows| - 1]);
      if last.i in seen then KeptRows(rest, seen) + [last] else KeptRows(rest, seen)
  }

  lemma {:induction false} KeptRowsAreRowsKept(s: Store, order: seq<IdentityId>, seen: seq<IdentityId>)
    ensures KeptRows(RowsOf(s, order), seen) == RowsOf(s, Kept(order, seen))
    decreases |order|
  {
    if order != [] {
      var (rest, last) := (order[..|order| - 1], order[|order| - 1]);
      KeptRowsAreRowsKept(s, rest, seen);
      var rows := RowsOf(s, order);
      assert rows[..|rows| - 1] == RowsOf(s, rest) && rows[|rows| - 1] == RowOf(s, last);
      assert RowsOf(s, Kept(rest, seen) + [last]) == RowsOf(s, Kept(rest, seen)) + [RowOf(s, last)];
    }
  }

  lemma {:induction false} KeptIff(rows: seq<Row>, seen: seq<IdentityId>, r: Row)
    ensures r in KeptRows(rows, seen) <==> r in rows && r.i in seen
    decreases |rows|
  {
    if rows != [] {
      var (rest, last) := (rows[..|rows| - 1], rows[|rows| - 1]);
      assert rows == rest + [last];
      KeptIff(rest, seen, r);
    }
  }

  // ---------------------------------------------------------------- dictionaries over seen and new rows

  /** `late` knows whatever `early` knows, and agrees with it wherever it holds an seen identity. */
  ghost predicate Extends(early: map<string, IdentityId>, late: map<string, IdentityId>, seen: seq<IdentityId>) {
    && early.Keys <= late.Keys
    && (forall key :: key in late && late[key] in seen ==> key in early && early[key] == late[key])
  }

  lemma {:induction false} OutlookExtends(rows: seq<Row>, seen: seq<IdentityId>)
    ensures Extends(OutlookByHandle(KeptRows(rows, seen)), OutlookByHandle(rows), seen)
    decreases |rows|
  {
    if rows != [] {
      var (rest, last) := (rows[..|rows| - 1], rows[|rows| - 1]);
      OutlookExtends(rest, seen);
      if last.i in seen {
        var kept := KeptRows(rows, seen);
        assert kept[..|kept| - 1] == KeptRows(rest, seen) && kept[|kept| - 1] == last;
      }
    }
  }

  /** A number the later dictionary gives to an seen identity, the earlier one gives to it too. */
  ghost predicate Agrees(early: map<string, IdentityId>, late: map<string, IdentityId>, seen: seq<IdentityId>,
                         digits: string) {
    digits in late && late[digits] in seen ==> digits in early && early[digits] == late[digits]
  }

  lemma OneMoreNumber(rest: seq<Row>, last: Row, excluded: set<string>, digits: string)
    ensures var (m, longer) := (WhatsappByDigits(rest, excluded), WhatsappByDigits(rest + [last], excluded));
      && (digits in longer <==> digits in m || (IsNumberOf(last, digits) && digits !in excluded))
      && (digits in longer ==> longer[digits] == if digits in m then m[digits] else last.i)
  {
    assert (rest + [last])[..|rest|] == rest;
    hide PhoneDigits;
  }

  /** The same for numbers; more of them may be excluded later. */
  lemma {:induction false} NumbersAgree(rows: seq<Row>, seen: seq<IdentityId>, few: set<string>, many: set<string>,
                                        digits: string)
    requires few <= many
    ensures Agrees(WhatsappByDigits(KeptRows(rows, seen), few), WhatsappByDigits(rows, many), seen, digits)
    ensures digits !in many && digits in WhatsappByDigits(KeptRows(rows, seen), few) ==>
      digits in WhatsappByDigits(rows, many)
    decreases |rows|
  {
    if rows != [] {
      var (rest, last) := (rows[..|rows| - 1], rows[|rows| - 1]);
      assert rows == rest + [last];
      NumbersAgree(rest, seen, few, many, digits);
      hide WhatsappByDigits, IsNumberOf;
      OneMoreNumber(rest, last, many, digits);
      OneMoreNumber(KeptRows(rest, seen), last, few, digits);
    }
  }

  lemma WhatsappExtends(rows: seq<Row>, seen: seq<IdentityId>)
    ensures Extends(WhatsappByDigits(KeptRows(rows, seen), {}), WhatsappByDigits(rows, {}), seen)
  {
    hide WhatsappByDigits;
    forall digits
      ensures Agrees(WhatsappByDigits(KeptRows(rows, seen), {}), WhatsappByDigits(rows, {}), seen, digits)
      ensures digits in WhatsappByDigits(KeptRows(rows, seen), {}) ==> digits in WhatsappByDigits(rows, {})
    {
      NumbersAgree(rows, seen, {}, {}, digits);
    }
  }

  lemma {:induction false} FirstKnownStays(keys: seq<string>, early: map<string, IdentityId>,
                                           late: map<string, IdentityId>)
    requires early.Keys <= late.Keys
    requires FirstKnown(keys, late).Some? && FirstKnown(keys, late).value in early
    ensures FirstKnown(keys, early) == FirstKnown(keys, late)
    decreases |keys|
  {
    if keys != [] && keys[0] !in late {
      FirstKnownStays(keys[1..], early, late);
    }
  }

  // ---------------------------------------------------------------- what is new about a match

  /** A stored identity that the earlier scan did not return. */
  predicate Unscanned(w: World, e: End) {
    e.Existing? && e.i !in w.order
  }

  /** The LinkedIn side of a connection that was not there, or read differently. */
  predicate FromNewConnection(w: World, v: World, e: End) {
    e.Linkedin? && exists c :: c in v.connections && c !in w.connections && c.id == e.handle
  }

  /** An identity whose latest message is not automated now, and was, if there was one. */
  predicate Turned(w: World, v: World, e: End) {
    && e.Existing? && e.i in v.lastAutomated && !v.lastAutomated[e.i]
    && (e.i in w.lastAutomated ==> w.lastAutomated[e.i])
  }

  /** A record that the address book did not hold links the two. */
  predicate LinkedByNewEntry(w: World, v: World, rows: seq<Row>, m: Match) {
    exists e :: e in v.book && e !in w.book && BridgeOf(e, OutlookByHandle(rows), WhatsappByDigits(rows, {})) == [m]
  }

  /** The signature of a message that was not there names the other side. */
  predicate SignedInNewMessage(w: World, v: World, rows: seq<Row>, m: Match) {
    exists x :: x in v.messages && x !in w.messages && x.sender.Some?
      && m in SignatureMatchesOf(x.sender.value, x.signaturePhones, WhatsappByDigits(rows, SelfDigits(rows)))
  }

  /** What the rule found m by was not there when w was read; rows are those that v reads. */
  predicate HasNews(w: World, v: World, rows: seq<Row>, rule: Rule, m: Match) {
    match rule
    case ExactEmail => Unscanned(w, m.a) || FromNewConnection(w, v, m.b)
    case ContactBridge => Unscanned(w, m.a) || Unscanned(w, m.b) || LinkedByNewEntry(w, v, rows, m)
    case SignaturePhone => Unscanned(w, m.b) || SignedInNewMessage(w, v, rows, m)
    case OutlookDedupe => Unscanned(w, m.a) || Unscanned(w, m.b) || Turned(w, v, m.a) || Turned(w, v, m.b)
    case LinkedinCorrelation => FromNewConnection(w, v, m.a) || Unscanned(w, m.b)
  }

  // ---------------------------------------------------------------- rule by rule

  lemma EmailNews(w: World, v: World, rows: seq<Row>, m: Match)
    requires m in EmailMatches(rows, v.connections)
    ensures m in EmailMatches(KeptRows(rows, w.order), w.connections) || HasNews(w, v, rows, ExactEmail, m)
  {
    EmailMatchIff(rows, v.connections, m);
    EmailMatchIff(KeptRows(rows, w.order), w.connections, m);
    var r, c := EmailSources(rows, v.connections, m);
    KeptIff(rows, w.order, r);
    hide LowerText, IsGenericRole, DisplayName;
    if r.i in w.order && c in w.connections {
      assert IsEmailMatch(KeptRows(rows, w.order), w.connections, m);
    }
  }

  lemma BridgeNews(w: World, v: World, rows: seq<Row>, m: Match)
    requires var (outlook, whatsapp) := (OutlookByHandle(rows), WhatsappByDigits(rows, {}));
      m in BridgeMatches(v.book, outlook, whatsapp)
    ensures var kept := KeptRows(rows, w.order);
      || m in BridgeMatches(w.book, OutlookByHandle(kept), WhatsappByDigits(kept, {}))
      || HasNews(w, v, rows, ContactBridge, m)
  {
    var (kept, outlook, whatsapp) := (KeptRows(rows, w.order), OutlookByHandle(rows), WhatsappByDigits(rows, {}));
    var (early, earlyNumbers) := (OutlookByHandle(kept), WhatsappByDigits(kept, {}));
    BridgeIff(v.book, outlook, whatsapp, m);
    BridgeIff(w.book, early, earlyNumbers, m);
    var e :| e in v.book && BridgeOf(e, outlook, whatsapp) == [m];
    if e in w.book && !Unscanned(w, m.a) && !Unscanned(w, m.b) {
      OutlookExtends(rows, w.order);
      WhatsappExtends(rows, w.order);
      hide OutlookByHandle, WhatsappByDigits;
      BridgeStays(e, early, outlook, earlyNumbers, whatsapp, w.order, m);
    }
  }

  lemma BridgeStays(e: AddressBookEntry, early: map<string, IdentityId>, late: map<string, IdentityId>,
                    earlyNumbers: map<string, IdentityId>, lateNumbers: map<string, IdentityId>,
                    seen: seq<IdentityId>, m: Match)
    requires Extends(early, late, seen) && Extends(earlyNumbers, lateNumbers, seen)
    requires BridgeOf(e, late, lateNumbers) == [m]
    requires (m.a.Existing? ==> m.a.i in seen) && (m.b.Existing? ==> m.b.i in seen)
    ensures BridgeOf(e, early, earlyNumbers) == [m]
  {
    FirstKnownStays(Lowered(e.emails), early, late);
    FirstKnownStays(e.phones, earlyNumbers, lateNumbers);
  }

  lemma SelfDigitsGrow(rows: seq<Row>, seen: seq<IdentityId>)
    ensures SelfDigits(KeptRows(rows, seen)) <= SelfDigits(rows)
  {
    forall digits | digits in SelfDigits(KeptRows(rows, seen)) ensures digits in SelfDigits(rows) {
      var r :| r in KeptRows(rows, seen) && r.channel == "whatsapp" && r.isSelf
        && PhoneDigits(r.handle) == Some(digits);
      KeptIff(rows, seen, r);
    }
  }

  lemma SignatureNews(w: World, v: World, rows: seq<Row>, m: Match)
    requires m in SignatureMatches(v.messages, WhatsappByDigits(rows, SelfDigits(rows)))
    ensures var kept := KeptRows(rows, w.order);
      || m in SignatureMatches(w.messages, WhatsappByDigits(kept, SelfDigits(kept)))
      || HasNews(w, v, rows, SignaturePhone, m)
  {
    var kept := KeptRows(rows, w.order);
    var (early, late) := (WhatsappByDigits(kept, SelfDigits(kept)), WhatsappByDigits(rows, SelfDigits(rows)));
    SignatureIff(v.messages, late, m);
    SignatureIff(w.messages, early, m);
    var x, digits :| x in v.messages && x.sender.Some? && digits in x.signaturePhones && digits in late
      && m == SignaturePair(x.sender.value, late, digits);
    SelfDigitsGrow(rows, w.order);
    NumbersAgree(rows, w.order, SelfDigits(kept), SelfDigits(rows), digits);
    SignerIff(x.sender.value, x.signaturePhones, late, m);
  }

  /** A pair of seen, earlier eligible rows of one name is a pair of what was left of the scan. */
  lemma {:induction false} NamedPairStays(rows: seq<Row>, seen: seq<IdentityId>, name: seq<string>,
                                          late: set<IdentityId>, early: set<IdentityId>, m: Match)
    requires IsNamedPair(rows, name, late, m) && m.a.Existing? && m.b.Existing?
    requires m.a.i in seen && m.b.i in seen && m.a.i in early && m.b.i in early
    ensures IsNamedPair(KeptRows(rows, seen), name, early, m)
    decreases |rows|
  {
    if rows != [] {
      var (rest, last) := (rows[..|rows| - 1], rows[|rows| - 1]);
      assert rows == rest + [last];
      NamedPairOfLonger(rest, last, name, late, m);
      if last.i in seen {
        NamedPairOfLonger(KeptRows(rest, seen), last, name, early, m);
      }
      if IsNamedPair(rest, name, late, m) {
        NamedPairStays(rest, seen, name, late, early, m);
      } else {
        var x :| x in rest && RuleMatching.Named(x, name, late) && m == DedupePair(x, last);
        KeptIff(rest, seen, x);
      }
    }
  }

  lemma NamedPairIsEligible(rows: seq<Row>, name: seq<string>, candidates: set<IdentityId>, m: Match)
    requires IsNamedPair(rows, name, candidates, m)
    ensures m.a.Existing? && m.b.Existing? && m.a.i in candidates && m.b.i in candidates
  {
  }

  lemma DedupeNews(w: World, v: World, s: Store, m: Match)
    requires var rows := RowsOf(s, v.order); m in DedupeMatches(rows, Undecided(s, v))
    ensures var rows := RowsOf(s, v.order);
      m in DedupeMatches(KeptRows(rows, w.order), Undecided(s, w)) || HasNews(w, v, rows, OutlookDedupe, m)
  {
    var rows := RowsOf(s, v.order);
    DedupeIff(rows, Undecided(s, v), m);
    DedupeIff(KeptRows(rows, w.order), Undecided(s, w), m);
    var name :| IsNamedPair(rows, name, Undecided(s, v), m);
    NamedPairIsEligible(rows, name, Undecided(s, v), m);
    hide IsNamedPair, DedupeMatches, RowsOf;
    if !HasNews(w, v, rows, OutlookDedupe, m) {
      NamedPairStays(rows, w.order, name, Undecided(s, v), Undecided(s, w), m);
    }
  }

  lemma CorrelationNews(w: World, v: World, rows: seq<Row>, m: Match)
    requires m in Correlations(v.connections, rows)
    ensures m in Correlations(w.connections, KeptRows(rows, w.order)) || HasNews(w, v, rows, LinkedinCorrelation, m)
  {
    CorrelationIff(v.connections, rows, m);
    CorrelationIff(w.connections, KeptRows(rows, w.order), m);
    hide IsCorrelation, SameName, FullName;
    var c, r := CorrelationSources(v.connections, rows, m);
    KeptIff(rows, w.order, r);
    if r.i in w.order && c in w.connections {
      CorrelationFrom(w.connections, KeptRows(rows, w.order), c, r);
    }
  }

  /** What a later reading of the world makes a rule find, the earlier one did, or it is news. */
  lemma NewMatchHasNews(w: World, v: World, s: Store, rule: Rule, m: Match)
    requires Follows(w, v) && m in Matches(v, s, rule)
    ensures m in Matches(w, s, rule) || HasNews(w, v, RowsOf(s, v.order), rule, m)
  {
    var rows := RowsOf(s, v.order);
    KeptRowsAreRowsKept(s, v.order, w.order);
    assert KeptRows(rows, w.order) == RowsOf(s, w.order);
    hide HasNews, KeptRows, RowsOf;
    match rule
    case ExactEmail => EmailNews(w, v, rows, m);
    case ContactBridge => BridgeNews(w, v, rows, m);
    case SignaturePhone => SignatureNews(w, v, rows, m);
    case OutlookDedupe => DedupeNews(w, v, s, m);
    case LinkedinCorrelation => CorrelationNews(w, v, rows, m);
  }

  /** v reads the same rows, and nothing that w did not read. */
  ghost predicate NothingNew(w: World, v: World) {
    && v.order == w.order
    && (forall c :: c in v.connections ==> c in w.connections)
    && (forall e :: e in v.book ==> e in w.book)
    && (forall x :: x in v.messages ==> x in w.messages)
    && (forall i :: i in v.lastAutomated && !v.lastAutomated[i] ==> i in w.lastAutomated && !w.lastAutomated[i])
  }

  /** With nothing new to read, a rule finds nothing new. */
  lemma NothingNewIsFound(w: World, v: World, s: Store, rule: Rule, m: Match)
    requires NothingNew(w, v) && m in Matches(v, s, rule)
    ensures m in Matches(w, s, rule)
  {
    var rows := RowsOf(s, w.order);
    match rule
    case ExactEmail =>
      EmailMatchIff(rows, v.connections, m);
      EmailMatchIff(rows, w.connections, m);
    case ContactBridge =>
      BridgeIff(v.book, OutlookByHandle(rows), WhatsappByDigits(rows, {}), m);
      BridgeIff(w.book, OutlookByHandle(rows), WhatsappByDigits(rows, {}), m);
    case SignaturePhone =>
      SignatureIff(v.messages, WhatsappByDigits(rows, SelfDigits(rows)), m);
      SignatureIff(w.messages, WhatsappByDigits(rows, SelfDigits(rows)), m);
    case OutlookDedupe => FewerCandidatesFewerPairs(rows, Undecided(s, v), Undecided(s, w));
    case LinkedinCorrelation =>
      CorrelationIff(v.connections, rows, m);
      CorrelationIff(w.connections, rows, m);
  }

  // ---------------------------------------------------------------- what does count as new

  const NAMED := Connection("c", Some("a"), Some("b"), None, None, None)
  const NAMESAKE := Identity("outlook", "x", Some("a b"), None, false)

  function Reading(order: seq<IdentityId>, connections: seq<Connection>, book: seq<AddressBookEntry>): World {
    World(order, connections, book, [], map[])
  }

  lemma NamesakesCorrelate()
    ensures Correlations([NAMED], [Row(0, "outlook", "x", Some("a b"), false)]) != []
  {
    var row := Row(0, "outlook", "x", Some("a b"), false);
    assert SameName(NAMED, row) by {
      assert OrEmpty(NAMED.firstName) + " " + OrEmpty(NAMED.lastName) == "a b";
    }
    hide SameName;
    CorrelationIff([NAMED], [row], Correlation(NAMED, row));
    assert NAMED in [NAMED] && row in [row];
  }

  lemma NoRowsNoCorrelations(c: Connection)
    ensures Correlations([c], []) == []
  {
    assert [c][..0] == [];
    assert Correlations([], []) == [] && CorrelationsOf(c, []) == [];
  }

  /** Nothing but an identity has been added, and a rule that reads it finds a pair: growth alone is not enough. */
  lemma NewNamesakeIsFound()
    ensures Grows(State(Store(map[], map[], [], []), map[]), State(Store(map[0 := NAMESAKE], map[], [], []), map[]))
    ensures Follows(Reading([], [NAMED], []), Reading([0], [NAMED], []))
    ensures var grown := Store(map[0 := NAMESAKE], map[], [], []);
      && Matches(Reading([], [NAMED], []), grown, LinkedinCorrelation) == []
      && Matches(Reading([0], [NAMED], []), grown, LinkedinCorrelation) != []
  {
    var grown := Store(map[0 := NAMESAKE], map[], [], []);
    assert [0][..0] == [];
    assert RowsOf(grown, [0]) == [Row(0, "outlook", "x", Some("a b"), false)] && RowsOf(grown, []) == [];
    hide Correlations, RowsOf;
    NamesakesCorrelate();
    NoRowsNoCorrelations(NAMED);
  }

  const ENTRY := AddressBookEntry(["a@b"], ["1"])
  const DEVICES := Store(map[0 := Identity("outlook", "a@b", None, None, false),
                             1 := Identity("whatsapp", "1@s", None, None, false),
                             2 := Identity("whatsapp", "1:2@s", None, None, false)], map[], [], [])

  lemma PlainNumber()
    ensures PhoneDigits("1@s") == Some("1")
  {
    BeforeIs("1@s", '@', 1);
    BeforeIs("1", ':', 1);
    hide Before;
    assert "1@s"[..1] == "1"[..1] == "1" && "1@s"[1] == '@';
  }

  lemma DeviceNumber()
    ensures PhoneDigits("1:2@s") == Some("1")
  {
    BeforeIs("1:2@s", '@', 3);
    BeforeIs("1:2", ':', 1);
    hide Before;
    assert "1:2@s"[..3] == "1:2" && "1:2"[..1] == "1" && "1:2@s"[3] == '@';
    assert "1:2@s"[0..] == "1:2@s" != "@g.us";
  }

  lemma LoweredAddress()
    ensures Lowered(["a@b"]) == ["a@b"]
  {
    assert LowerText("a@b") == "a@b";
  }

  lemma OneAddress(x: Row, y: Row, z: Row)
    requires x.channel == "outlook" && y.channel == "whatsapp" && z.channel == "whatsapp"
    ensures OutlookByHandle([x, y, z]) == map[x.handle := x.i]
  {
    assert [x, y, z][..2] == [x, y] && [x, y][..1] == [x] && [x][..0] == [];
    assert OutlookByHandle([x]) == map[x.handle := x.i];
    assert OutlookByHandle([x, y]) == OutlookByHandle([x]);
  }

  lemma OneNumber(x: Row, y: Row, z: Row)
    requires x.channel == "outlook" && IsNumberOf(y, "1") && IsNumberOf(z, "1")
    ensures WhatsappByDigits([x, y, z], {}) == map["1" := y.i]
  {
    assert [x, y, z][..2] == [x, y] && [x, y][..1] == [x] && [x][..0] == [];
    hide PhoneDigits;
    assert WhatsappByDigits([x], {}) == map[];
    assert WhatsappByDigits([x, y], {}) == map["1" := y.i];
  }

  lemma OneLink(outlook: map<string, IdentityId>, whatsapp: map<string, IdentityId>)
    requires "a@b" in outlook && "1" in whatsapp
    ensures BridgeMatches([ENTRY], outlook, whatsapp) ==
      [Match(Existing(outlook["a@b"]), Existing(whatsapp["1"]), "contact_bridge", true, IsGenericRole("a@b"))]
  {
    LoweredAddress();
    hide IsGenericRole, Lowered;
    assert FirstKnown(["a@b"], outlook) == Some("a@b") && FirstKnown(["1"], whatsapp) == Some("1");
    assert [ENTRY][..0] == [];
  }

  lemma DeviceRow(i: IdentityId)
    requires i == 1 || i == 2
    ensures IsNumberOf(RowOf(DEVICES, i), "1") && RowOf(DEVICES, i).i == i
  {
    PlainNumber();
    DeviceNumber();
    hide PhoneDigits;
  }

  lemma BridgeOfFirst(k: IdentityId, l: IdentityId)
    requires (k == 1 && l == 2) || (k == 2 && l == 1)
    ensures Matches(Reading([0, k, l], [], [ENTRY]), DEVICES, ContactBridge) ==
      [Match(Existing(0), Existing(k), "contact_bridge", true, IsGenericRole("a@b"))]
  {
    var rows := RowsOf(DEVICES, [0, k, l]);
    var (x, y, z) := (RowOf(DEVICES, 0), RowOf(DEVICES, k), RowOf(DEVICES, l));
    assert rows == [x, y, z] && x.channel == "outlook" && x.handle == "a@b" && x.i == 0;
    DeviceRow(k);
    DeviceRow(l);
    assert y.channel == "whatsapp" && z.channel == "whatsapp";
    hide RowsOf, RowOf, IsNumberOf, OutlookByHandle, WhatsappByDigits, BridgeMatches, IsGenericRole;
    OneAddress(x, y, z);
    OneNumber(x, y, z);
    OneLink(OutlookByHandle(rows), WhatsappByDigits(rows, {}));
  }

  /**
    Nor is it enough that the rows are the same. With a number on two rows the bridge takes whichever the
    query returns first, and the query asks for no order: in another one it finds another pair.
   */
  lemma ReorderedRowsFindAnother()
    ensures var (w, v) := (Reading([0, 1, 2], [], [ENTRY]), Reading([0, 2, 1], [], [ENTRY]));
      && Matches(w, DEVICES, ContactBridge) ==
           [Match(Existing(0), Existing(1), "contact_bridge", true, IsGenericRole("a@b"))]
      && Matches(v, DEVICES, ContactBridge) ==
           [Match(Existing(0), Existing(2), "contact_bridge", true, IsGenericRole("a@b"))]
  {
    hide Matches;
    BridgeOfFirst(1, 2);
    BridgeOfFirst(2, 1);
  }

  // ---------------------------------------------------------------- what a rule writes

  /** The match joins these two identities. */
  predicate Joins(st: State, m: Match, a: IdentityId, b: IdentityId) {
    Ready(st, m.a) && Ready(st, m.b) && IdOf(st, m.a) == a && IdOf(st, m.b) == b
  }

  /** One of the matches that had something left to do joins these two. */
  ghost predicate PairFrom(st: State, t: State, matches: seq<Match>, rule: string, a: IdentityId, b: IdentityId) {
    exists m :: m in matches && !Settled(st, m) && m.rule == rule && Joins(t, m, a, b)
  }

  /** Every candidate and every log row that t has more than st is of a match that had something left to do. */
  ghost predicate WrittenFor(st: State, t: State, matches: seq<Match>) {
    && st.store.candidates <= t.store.candidates && st.store.log <= t.store.log
    && (forall c :: |st.store.candidates| <= c < |t.store.candidates| ==>
          var row := t.store.candidates[c]; PairFrom(st, t, matches, row.rule, row.a, row.b))
    && (forall k :: |st.store.log| <= k < |t.store.log| ==>
          var row := t.store.log[k]; PairFrom(st, t, matches, row.rule, row.a, row.b))
  }

  lemma JoinsStay(s: State, t: State, m: Match, a: IdentityId, b: IdentityId)
    requires Grows(s, t) && Joins(s, m, a, b)
    ensures Joins(t, m, a, b)
  {
  }

  /** What t has more than s is about these two, by this rule. */
  ghost predicate OnlyAbout(s: Store, t: Store, rule: string, a: IdentityId, b: IdentityId) {
    && s.candidates <= t.candidates && s.log <= t.log
    && (forall c :: |s.candidates| <= c < |t.candidates| ==>
          var row := t.candidates[c]; row.rule == rule && row.a == a && row.b == b)
    && (forall k :: |s.log| <= k < |t.log| ==>
          var row := t.log[k]; row.rule == rule && row.a == a && row.b == b)
  }

  lemma DecisionIsAboutItsPair(s: Store, o: Oracle, a: IdentityId, b: IdentityId, m: Match)
    requires a in s.identities && b in s.identities
    ensures OnlyAbout(s, Decided(s, o, a, b, m), m.rule, a, b)
  {
    hide AutomaticStatus;
  }

  lemma AboutOneMatch(st: State, t: State, m: Match, a: IdentityId, b: IdentityId)
    requires !Settled(st, m) && Joins(t, m, a, b) && OnlyAbout(st.store, t.store, m.rule, a, b)
    ensures WrittenFor(st, t, [m])
  {
    hide Settled, Joins;
    assert m in [m] && PairFrom(st, t, [m], m.rule, a, b);
  }

  lemma OneMatchWritesItsPair(st: State, o: Oracle, m: Match)
    requires Indexed(st) && Supplies(o, st) && Resolvable(st, m.a) && Resolvable(st, m.b)
    ensures WrittenFor(st, Processed(st, o, m), [m])
  {
    hide Grows, Supplies, Indexed, Decided, Upserted, RuleRuns.Named, WrittenFor, OnlyAbout;
    if Settled(st, m) {
      SettledIsFixed(st, o, m);
      NothingWritten(st, [m]);
    } else {
      var (u, t) := (Upserted2(st, o, m), Processed(st, o, m));
      BothUpserted(st, o, m);
      NamedIsReady(u, m.a);
      NamedIsReady(u, m.b);
      var (a, b) := (IdOf(u, m.a), IdOf(u, m.b));
      DecidedGrows(u, o, a, b, m);
      JoinsStay(u, t, m, a, b);
      DecisionIsAboutItsPair(u.store, o, a, b, m);
      UpsertTouchesOnlyProfiles(st, o, m.a);
      UpsertTouchesOnlyProfiles(Upserted(st, o, m.a), o, m.b);
      SameTablesOnlyAbout(st.store, u.store, t.store, m.rule, a, b);
      AboutOneMatch(st, t, m, a, b);
    }
  }

  lemma SameTablesOnlyAbout(s: Store, u: Store, t: Store, rule: string, a: IdentityId, b: IdentityId)
    requires u.candidates == s.candidates && u.log == s.log && OnlyAbout(u, t, rule, a, b)
    ensures OnlyAbout(s, t, rule, a, b)
  {
  }

  lemma NothingWritten(st: State, matches: seq<Match>)
    ensures WrittenFor(st, st, matches)
  {
  }

  /** What was written for later matches comes on top of what was written before. */
  lemma WrittenForLonger(st: State, mid: State, t: State, rest: seq<Match>, last: Match)
    requires Grows(st, mid) && Grows(mid, t) && WrittenFor(st, mid, rest) && WrittenFor(mid, t, [last])
    ensures WrittenFor(st, t, rest + [last])
  {
    hide Grows, Settled;
    forall rule, a, b | PairFrom(st, mid, rest, rule, a, b) ensures PairFrom(st, t, rest + [last], rule, a, b) {
      var m :| m in rest && !Settled(st, m) && m.rule == rule && Joins(mid, m, a, b);
      JoinsStay(mid, t, m, a, b);
    }
    forall rule, a, b | PairFrom(mid, t, [last], rule, a, b) ensures PairFrom(st, t, rest + [last], rule, a, b) {
      if Settled(st, last) {
        SettledIsStable(st, mid, last);
      }
      assert last in rest + [last];
    }
    hide PairFrom, Joins;
    var (before, after) := (mid.store.candidates, t.store.candidates);
    assert forall c :: 0 <= c < |before| ==> after[c] == before[c];
    assert forall k :: 0 <= k < |mid.store.log| ==> t.store.log[k] == mid.store.log[k];
  }

  /** A match that was settled before the rule began makes it write nothing. */
  lemma {:induction false} OnlyUnsettledWrite(st: State, o: Oracle, matches: seq<Match>)
    requires Indexed(st) && Supplies(o, st) && AllResolvable(st, matches)
    ensures WrittenFor(st, ProcessedAll(st, o, matches), matches)
    decreases |matches|
  {
    hide Indexed, Supplies, WrittenFor, Grows, Processed, Settled, Resolvable;
    if matches == [] {
      NothingWritten(st, []);
    } else {
      var (rest, last) := (matches[..|matches| - 1], matches[|matches| - 1]);
      assert last in matches && matches == rest + [last];
      OnlyUnsettledWrite(st, o, rest);
      AllProcessedSettle(st, o, rest);
      var mid := ProcessedAll(st, o, rest);
      StaysResolvable(st, mid, last.a);
      StaysResolvable(st, mid, last.b);
      OneMatchWritesItsPair(mid, o, last);
      ProcessedSettles(mid, o, last);
      WrittenForLonger(st, mid, Processed(mid, o, last), rest, last);
    }
  }
}
