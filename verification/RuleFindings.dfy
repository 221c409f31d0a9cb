/**
  What each rule finds and how it may act on it: exactly which pairs, which of them it merges without
  asking, and which rules never do.
 */
module RuleFindings {
  import opened Text
  import opened Wrappers
  import opened StoreModel
  import opened SafetyChecks
  import opened RuleMatching
  import opened RuleRuns
  import opened NewMatches

  /** What a scan returns: the columns of each identity, in order. */
  lemma ScanIs(s: Store, order: seq<IdentityId>, k: nat)
    requires k < |order| && order[k] in s.identities
    ensures |RowsOf(s, order)| == |order|
    ensures var (r, i) := (RowsOf(s, order)[k], s.identities[order[k]]);
      && r.i == order[k] && r.channel == i.channel && r.handle == i.handle
      && r.displayName == i.displayName && r.isSelf == i.isSelf
  {
  }

  // ---------------------------------------------------------------- dictionaries

  /** The last Outlook row with this handle: there is one, and its identity is this. */
  ghost predicate IsLastOutlook(rows: seq<Row>, handle: string, i: IdentityId) {
    exists k :: 0 <= k < |rows| && rows[k].channel == "outlook" && rows[k].handle == handle && rows[k].i == i
      && forall j :: k < j < |rows| ==> rows[j].channel != "outlook" || rows[j].handle != handle
  }

  ghost predicate HasOutlook(rows: seq<Row>, handle: string) {
    exists r :: r in rows && r.channel == "outlook" && r.handle == handle
  }

  lemma {:induction false} HandleIsKnownIff(rows: seq<Row>, handle: string)
    ensures handle in OutlookByHandle(rows) <==> HasOutlook(rows, handle)
    ensures handle in OutlookByHandle(rows) ==> IsLastOutlook(rows, handle, OutlookByHandle(rows)[handle])
    decreases |rows|
  {
    if rows != [] {
      var (rest, last) := (rows[..|rows| - 1], rows[|rows| - 1]);
      assert rows == rest + [last];
      HandleIsKnownIff(rest, handle);
      if last.channel == "outlook" && last.handle == handle {
        assert rows[|rest|] == last;
      } else if handle in OutlookByHandle(rest) {
        var k :| 0 <= k < |rest| && rest[k].channel == "outlook" && rest[k].handle == handle
          && rest[k].i == OutlookByHandle(rest)[handle]
          && forall j :: k < j < |rest| ==> rest[j].channel != "outlook" || rest[j].handle != handle;
        assert rows[k] == rest[k] && forall j :: 0 <= j < |rest| ==> rows[j] == rest[j];
      }
    }
  }

  lemma OneLastOutlook(rows: seq<Row>, handle: string, i: IdentityId, j: IdentityId)
    requires IsLastOutlook(rows, handle, i) && IsLastOutlook(rows, handle, j)
    ensures i == j && HasOutlook(rows, handle)
  {
  }

  /** The first WhatsApp row with this number, none of whose numbers is excluded. */
  ghost predicate IsFirstWhatsapp(rows: seq<Row>, digits: string, i: IdentityId) {
    exists k: nat :: IsFirstOf(rows, digits, k) && rows[k].i == i
  }

  ghost predicate HasNumber(rows: seq<Row>, digits: string) {
    exists r :: r in rows && r.channel == "whatsapp" && PhoneDigits(r.handle) == Some(digits)
  }

  /** The number is that of a row flagged as the user's own. */
  ghost predicate IsOwnNumber(rows: seq<Row>, digits: string) {
    exists r :: r in rows && r.channel == "whatsapp" && r.isSelf && PhoneDigits(r.handle) == Some(digits)
  }

  lemma NumberIs(rows: seq<Row>, digits: string, i: IdentityId)
    ensures digits in WhatsappByDigits(rows, {}) <==> HasNumber(rows, digits)
    ensures digits in WhatsappByDigits(rows, {}) && WhatsappByDigits(rows, {})[digits] == i <==>
      IsFirstWhatsapp(rows, digits, i)
  {
    hide PhoneDigits, WhatsappByDigits;
    NumberIsKnownIff(rows, {}, digits);
    FirstIsOne(rows, digits);
  }

  lemma OthersNumberIs(rows: seq<Row>, digits: string, i: IdentityId)
    ensures var others := WhatsappByDigits(rows, SelfDigits(rows));
      digits in others && others[digits] == i <==> IsFirstWhatsapp(rows, digits, i) && !IsOwnNumber(rows, digits)
  {
    assert digits in SelfDigits(rows) <==> IsOwnNumber(rows, digits);
    hide PhoneDigits, WhatsappByDigits, SelfDigits;
    NumberIsKnownIff(rows, SelfDigits(rows), digits);
    FirstIsOne(rows, digits);
  }

  lemma FirstIsOne(rows: seq<Row>, digits: string)
    ensures forall k: nat, l: nat :: IsFirstOf(rows, digits, k) && IsFirstOf(rows, digits, l) ==> k == l
    ensures forall k: nat :: IsFirstOf(rows, digits, k) ==> HasNumber(rows, digits)
  {
    forall k: nat | IsFirstOf(rows, digits, k) ensures HasNumber(rows, digits) {
      assert rows[k] in rows;
    }
  }

  // ---------------------------------------------------------------- exactly which pairs

  /**
    A record links its first address that is an Outlook handle, the j-th, with its first number that is a
    WhatsApp handle's, the k-th.
   */
  ghost predicate Links(rows: seq<Row>, e: AddressBookEntry, j: nat, k: nat, a: IdentityId, b: IdentityId, m: Match) {
    && j < |e.emails| && k < |e.phones|
    && IsLastOutlook(rows, LowerText(e.emails[j]), a) && IsFirstWhatsapp(rows, e.phones[k], b)
    && (forall x :: 0 <= x < j ==> !HasOutlook(rows, LowerText(e.emails[x])))
    && (forall x :: 0 <= x < k ==> !HasNumber(rows, e.phones[x]))
    && m == Match(Existing(a), Existing(b), "contact_bridge", true, IsGenericRole(LowerText(e.emails[j])))
  }

  ghost predicate IsBridgeMatch(rows: seq<Row>, book: seq<AddressBookEntry>, m: Match) {
    exists e, j: nat, k: nat, a, b :: e in book && Links(rows, e, j, k, a, b, m)
  }

  /** A message pairs its sender with whoever else first has a number of its signature, unless it is an own number. */
  ghost predicate IsSignatureMatch(rows: seq<Row>, messages: seq<SignedMessage>, m: Match) {
    exists x, digits, b :: x in messages && x.sender.Some? && digits in x.signaturePhones
      && IsFirstWhatsapp(rows, digits, b) && !IsOwnNumber(rows, digits)
      && m == Match(Existing(x.sender.value), Existing(b), "email_signature_phone", false, false)
  }

  /** Unresolved, and its latest message, which there is, is not automated. */
  ghost predicate MayBeDuplicate(w: World, s: Store, i: IdentityId) {
    i in s.identities && s.identities[i].personId == None && i in w.lastAutomated && !w.lastAutomated[i]
  }

  /** Two eligible rows of one name, the earlier one first. */
  ghost predicate IsDuplicate(w: World, s: Store, rows: seq<Row>, m: Match) {
    exists j, k :: 0 <= j < k < |rows|
      && MayBeDuplicate(w, s, rows[j].i) && MayBeDuplicate(w, s, rows[k].i)
      && rows[j].channel == "outlook" && rows[k].channel == "outlook" && !rows[j].isSelf && !rows[k].isSelf
      && rows[j].displayName.Some? && rows[k].displayName.Some?
      && NormalisedName(rows[j].displayName.value) == NormalisedName(rows[k].displayName.value)
      && m == Match(Existing(rows[j].i), Existing(rows[k].i), "outlook_same_channel_dedupe", false, false)
  }

  /** What a rule is to find. */
  ghost predicate IsFinding(w: World, s: Store, rule: Rule, m: Match) {
    var rows := RowsOf(s, w.order);
    match rule
    case ExactEmail => IsEmailMatch(rows, w.connections, m)
    case ContactBridge => IsBridgeMatch(rows, w.book, m)
    case SignaturePhone => IsSignatureMatch(rows, w.messages, m)
    case OutlookDedupe => IsDuplicate(w, s, rows, m)
    case LinkedinCorrelation => IsCorrelation(w.connections, rows, m)
  }

  lemma FirstOfList(keys: seq<string>, table: map<string, IdentityId>, k: nat)
    requires k < |keys| && keys[k] in table && forall x :: 0 <= x < k ==> keys[x] !in table
    ensures FirstKnown(keys, table) == Some(keys[k])
    decreases k
  {
    if k > 0 {
      FirstOfList(keys[1..], table, k - 1);
    }
  }

  lemma BridgeFindsIff(rows: seq<Row>, book: seq<AddressBookEntry>, m: Match)
    ensures m in BridgeMatches(book, OutlookByHandle(rows), WhatsappByDigits(rows, {})) <==>
      IsBridgeMatch(rows, book, m)
  {
    var (outlook, whatsapp) := (OutlookByHandle(rows), WhatsappByDigits(rows, {}));
    hide OutlookByHandle, WhatsappByDigits, IsLastOutlook, IsFirstWhatsapp, HasOutlook, HasNumber;
    hide IsGenericRole, Lowered;
    BridgeIff(book, outlook, whatsapp, m);
    if e :| e in book && BridgeOf(e, outlook, whatsapp) == [m] {
      RecordLinks(rows, book, e, m);
    }
    if IsBridgeMatch(rows, book, m) {
      LinkIsFound(rows, book, m);
    }
  }

  lemma LoweredAt(emails: seq<string>, k: nat)
    requires k < |emails|
    ensures |Lowered(emails)| == |emails| && Lowered(emails)[k] == LowerText(emails[k])
  {
  }

  lemma RecordLinks(rows: seq<Row>, book: seq<AddressBookEntry>, e: AddressBookEntry, m: Match)
    requires e in book && BridgeOf(e, OutlookByHandle(rows), WhatsappByDigits(rows, {})) == [m]
    ensures IsBridgeMatch(rows, book, m)
  {
    var (outlook, whatsapp) := (OutlookByHandle(rows), WhatsappByDigits(rows, {}));
    var (email, phone) := (FirstKnown(Lowered(e.emails), outlook), FirstKnown(e.phones, whatsapp));
    FirstKnownIsFirst(Lowered(e.emails), outlook);
    FirstKnownIsFirst(e.phones, whatsapp);
    var j :| 0 <= j < |e.emails| && Lowered(e.emails)[j] == email.value && Lowered(e.emails)[j] in outlook
      && forall x :: 0 <= x < j ==> Lowered(e.emails)[x] !in outlook;
    var k :| 0 <= k < |e.phones| && e.phones[k] == phone.value && e.phones[k] in whatsapp
      && forall x :: 0 <= x < k ==> e.phones[x] !in whatsapp;
    HandleIsKnownIff(rows, email.value);
    NumberIs(rows, phone.value, whatsapp[phone.value]);
    hide OutlookByHandle, WhatsappByDigits, IsLastOutlook, IsFirstWhatsapp, HasOutlook, HasNumber, IsGenericRole;
    hide FirstKnown, Lowered;
    LoweredAt(e.emails, j);
    forall x | 0 <= x < j ensures !HasOutlook(rows, LowerText(e.emails[x])) {
      LoweredAt(e.emails, x);
      HandleIsKnownIff(rows, LowerText(e.emails[x]));
    }
    forall x | 0 <= x < k ensures !HasNumber(rows, e.phones[x]) {
      NumberIs(rows, e.phones[x], 0);
    }
    assert Links(rows, e, j, k, outlook[email.value], whatsapp[phone.value], m);
  }

  lemma LinkIsFound(rows: seq<Row>, book: seq<AddressBookEntry>, m: Match)
    requires IsBridgeMatch(rows, book, m)
    ensures m in BridgeMatches(book, OutlookByHandle(rows), WhatsappByDigits(rows, {}))
  {
    var (outlook, whatsapp) := (OutlookByHandle(rows), WhatsappByDigits(rows, {}));
    var e, j: nat, k: nat, a, b :| e in book && Links(rows, e, j, k, a, b, m);
    HandleIsKnownIff(rows, LowerText(e.emails[j]));
    OneLastOutlook(rows, LowerText(e.emails[j]), a, a);
    OneLastOutlook(rows, LowerText(e.emails[j]), a, outlook[LowerText(e.emails[j])]);
    NumberIs(rows, e.phones[k], b);
    hide OutlookByHandle, WhatsappByDigits, IsLastOutlook, IsFirstWhatsapp, HasOutlook, HasNumber, IsGenericRole;
    LoweredAt(e.emails, j);
    forall x | 0 <= x < j ensures Lowered(e.emails)[x] !in outlook {
      LoweredAt(e.emails, x);
      HandleIsKnownIff(rows, LowerText(e.emails[x]));
    }
    forall x | 0 <= x < k ensures e.phones[x] !in whatsapp {
      NumberIs(rows, e.phones[x], 0);
    }
    LinkOf(e, outlook, whatsapp, j, k);
    hide BridgeOf, Lowered, BridgeMatches;
    BridgeIff(book, outlook, whatsapp, m);
  }

  lemma LinkOf(e: AddressBookEntry, outlook: map<string, IdentityId>, whatsapp: map<string, IdentityId>, j: nat, k: nat)
    requires j < |e.emails| && Lowered(e.emails)[j] in outlook
    requires forall x :: 0 <= x < j ==> Lowered(e.emails)[x] !in outlook
    requires k < |e.phones| && e.phones[k] in whatsapp && forall x :: 0 <= x < k ==> e.phones[x] !in whatsapp
    ensures BridgeOf(e, outlook, whatsapp) ==
      [Match(Existing(outlook[Lowered(e.emails)[j]]), Existing(whatsapp[e.phones[k]]), "contact_bridge", true,
             IsGenericRole(Lowered(e.emails)[j]))]
  {
    FirstOfList(Lowered(e.emails), outlook, j);
    FirstOfList(e.phones, whatsapp, k);
  }

  lemma SignatureFindsIff(rows: seq<Row>, messages: seq<SignedMessage>, m: Match)
    ensures m in SignatureMatches(messages, WhatsappByDigits(rows, SelfDigits(rows))) <==>
      IsSignatureMatch(rows, messages, m)
  {
    var whatsapp := WhatsappByDigits(rows, SelfDigits(rows));
    SignatureIff(messages, whatsapp, m);
    hide WhatsappByDigits, SelfDigits, IsFirstWhatsapp, IsOwnNumber, SignatureMatches;
    if IsSignaturePair(messages, whatsapp, m) {
      var x, digits :| x in messages && x.sender.Some? && digits in x.signaturePhones && digits in whatsapp
        && m == Match(Existing(x.sender.value), Existing(whatsapp[digits]), "email_signature_phone", false, false);
      OthersNumberIs(rows, digits, whatsapp[digits]);
    }
    if IsSignatureMatch(rows, messages, m) {
      var x, digits, b :| x in messages && x.sender.Some? && digits in x.signaturePhones
        && IsFirstWhatsapp(rows, digits, b) && !IsOwnNumber(rows, digits)
        && m == Match(Existing(x.sender.value), Existing(b), "email_signature_phone", false, false);
      OthersNumberIs(rows, digits, b);
    }
  }

  lemma DedupeFindsIff(w: World, s: Store, m: Match)
    ensures m in DedupeMatches(RowsOf(s, w.order), Undecided(s, w)) <==> IsDuplicate(w, s, RowsOf(s, w.order), m)
  {
    var rows := RowsOf(s, w.order);
    DedupeIff(rows, Undecided(s, w), m);
    hide NormalisedName, RowsOf, DedupeMatches;
    if name :| IsNamedPair(rows, name, Undecided(s, w), m) {
    }
    if IsDuplicate(w, s, rows, m) {
      var j, k :| 0 <= j < k < |rows|
        && MayBeDuplicate(w, s, rows[j].i) && MayBeDuplicate(w, s, rows[k].i)
        && rows[j].channel == "outlook" && rows[k].channel == "outlook" && !rows[j].isSelf && !rows[k].isSelf
        && rows[j].displayName.Some? && rows[k].displayName.Some?
        && NormalisedName(rows[j].displayName.value) == NormalisedName(rows[k].displayName.value)
        && m == Match(Existing(rows[j].i), Existing(rows[k].i), "outlook_same_channel_dedupe", false, false);
      assert IsNamedPair(rows, NormalisedName(rows[j].displayName.value), Undecided(s, w), m);
    }
  }

  /** Every rule finds exactly what it is to find. */
  lemma RuleFindsIff(w: World, s: Store, rule: Rule, m: Match)
    ensures m in Matches(w, s, rule) <==> IsFinding(w, s, rule, m)
  {
    var rows := RowsOf(s, w.order);
    hide IsEmailMatch, IsBridgeMatch, IsSignatureMatch, IsDuplicate, IsCorrelation, RowsOf;
    match rule
    case ExactEmail => EmailMatchIff(rows, w.connections, m);
    case ContactBridge => BridgeFindsIff(rows, w.book, m);
    case SignaturePhone => SignatureFindsIff(rows, w.messages, m);
    case OutlookDedupe => DedupeFindsIff(w, s, m);
    case LinkedinCorrelation => CorrelationIff(w.connections, rows, m);
  }

  // ---------------------------------------------------------------- which of them are merged without asking

  /** Only two of the rules may merge without asking. */
  lemma AutomaticIff(w: World, s: Store, rule: Rule, m: Match)
    requires m in Matches(w, s, rule)
    ensures m.automatic <==> rule in {ExactEmail, ContactBridge}
  {
    RuleFindsIff(w, s, rule, m);
    hide Matches, RowsOf;
  }

  /** The other three never merge: they write pending candidates, and leave every person as it is. */
  lemma AskingRulesOnlyQueue(w: World, o: Oracle, st: State, rule: Rule)
    requires Runnable(w, o, st) && rule !in {ExactEmail, ContactBridge}
    ensures var (s, t) := (st.store, RuleRun(w, o, st, rule).store);
      && t.log == s.log && t.persons == s.persons && s.candidates <= t.candidates
      && (forall i :: i in s.identities ==> i in t.identities && t.identities[i].personId == s.identities[i].personId)
      && (forall c :: |s.candidates| <= c < |t.candidates| ==> t.candidates[c].status == Pending)
  {
    hide Supplies, Indexed, ProcessedAll, Matches;
    forall m | m in Matches(w, st.store, rule) ensures !m.automatic {
      AutomaticIff(w, st.store, rule, m);
    }
    QueueOnlyRulesMergeNothing(st, o, Matches(w, st.store, rule));
  }

  /** A match that may be acted on without asking, and is not blocked, joins these two. */
  ghost predicate Unblocked(t: State, matches: seq<Match>, a: IdentityId, b: IdentityId) {
    exists m :: m in matches && m.automatic && !m.blocked && Joins(t, m, a, b)
  }

  /** Every log row that t has more than st is an automatic merge of an unblocked match. */
  ghost predicate OnlyUnblocked(st: State, t: State, matches: seq<Match>) {
    && st.store.log <= t.store.log
    && forall k :: |st.store.log| <= k < |t.store.log| ==>
         t.store.log[k].decisionKind == "automatic" && Unblocked(t, matches, t.store.log[k].a, t.store.log[k].b)
  }

  lemma DecisionMergesUnblocked(s: Store, o: Oracle, a: IdentityId, b: IdentityId, m: Match)
    requires a in s.identities && b in s.identities
    ensures var t := Decided(s, o, a, b, m);
      && s.log <= t.log && |t.log| <= |s.log| + 1
      && (|t.log| > |s.log| ==>
            && m.automatic && !m.blocked
            && t.log[|s.log|].decisionKind == "automatic" && t.log[|s.log|].a == a && t.log[|s.log|].b == b)
  {
    hide ContactsContradict, Joined, HasCandidate, MergedPerson, Survivor, Absorbed, Moved;
  }

  lemma OneMatchMergesUnblocked(st: State, o: Oracle, m: Match)
    requires Indexed(st) && Supplies(o, st) && Resolvable(st, m.a) && Resolvable(st, m.b)
    ensures OnlyUnblocked(st, Processed(st, o, m), [m])
  {
    hide Grows, Supplies, Indexed, Decided, Upserted, RuleRuns.Named;
    var (u, t) := (Upserted2(st, o, m), Processed(st, o, m));
    BothUpserted(st, o, m);
    NamedIsReady(u, m.a);
    NamedIsReady(u, m.b);
    var (a, b) := (IdOf(u, m.a), IdOf(u, m.b));
    DecidedGrows(u, o, a, b, m);
    JoinsStay(u, t, m, a, b);
    DecisionMergesUnblocked(u.store, o, a, b, m);
    UpsertTouchesOnlyProfiles(st, o, m.a);
    UpsertTouchesOnlyProfiles(Upserted(st, o, m.a), o, m.b);
    hide Upserted2, Processed, Joins;
    assert m in [m];
  }

  lemma OnlyUnblockedForLonger(st: State, mid: State, t: State, rest: seq<Match>, last: Match)
    requires Grows(mid, t) && OnlyUnblocked(st, mid, rest) && OnlyUnblocked(mid, t, [last])
    ensures OnlyUnblocked(st, t, rest + [last])
  {
    hide Grows;
    forall a, b | Unblocked(mid, rest, a, b) ensures Unblocked(t, rest + [last], a, b) {
      var m :| m in rest && m.automatic && !m.blocked && Joins(mid, m, a, b);
      JoinsStay(mid, t, m, a, b);
    }
    assert last in rest + [last];
    assert forall a, b :: Unblocked(t, [last], a, b) ==> Unblocked(t, rest + [last], a, b);
    hide Unblocked;
    assert forall k :: 0 <= k < |mid.store.log| ==> t.store.log[k] == mid.store.log[k];
  }

  /** Nothing that is blocked, and nothing that is only to be queued, is merged. */
  lemma {:induction false} OnlyUnblockedMerge(st: State, o: Oracle, matches: seq<Match>)
    requires Indexed(st) && Supplies(o, st) && AllResolvable(st, matches)
    ensures OnlyUnblocked(st, ProcessedAll(st, o, matches), matches)
    decreases |matches|
  {
    hide Indexed, Supplies, OnlyUnblocked, Grows, Processed, RuleRuns.Settled, Resolvable;
    if matches == [] {
      NothingMerged(st);
    } else {
      var (rest, last) := (matches[..|matches| - 1], matches[|matches| - 1]);
      assert last in matches && matches == rest + [last];
      OnlyUnblockedMerge(st, o, rest);
      AllProcessedSettle(st, o, rest);
      var mid := ProcessedAll(st, o, rest);
      StaysResolvable(st, mid, last.a);
      StaysResolvable(st, mid, last.b);
      OneMatchMergesUnblocked(mid, o, last);
      ProcessedSettles(mid, o, last);
      OnlyUnblockedForLonger(st, mid, Processed(mid, o, last), rest, last);
    }
  }

  lemma NothingMerged(st: State)
    ensures OnlyUnblocked(st, st, [])
  {
  }

  /** Whom an unblocked match merges with whom: an Outlook identity that is no role address. */
  lemma UnblockedIsPersonal(w: World, st: State, t: State, rule: Rule, a: IdentityId, b: IdentityId)
    requires Scans(w, st.store) && Unblocked(t, Matches(w, st.store, rule), a, b)
    ensures rule in {ExactEmail, ContactBridge}
    ensures a in st.store.identities && st.store.identities[a].channel == "outlook"
    ensures !IsGenericRole(st.store.identities[a].handle)
  {
    var m :| m in Matches(w, st.store, rule) && m.automatic && !m.blocked && Joins(t, m, a, b);
    AutomaticIff(w, st.store, rule, m);
    RuleFindsIff(w, st.store, rule, m);
    hide Matches, IsGenericRole;
    var rows := RowsOf(st.store, w.order);
    var k := AutomaticMatchIsOutlook(rows, w, m);
    ScanIs(st.store, w.order, k);
    assert w.order[k] in w.order;
  }

  /** The Outlook row that an automatic match is of: it is blocked iff its address is a role's. */
  lemma AutomaticMatchIsOutlook(rows: seq<Row>, w: World, m: Match) returns (k: nat)
    requires IsEmailMatch(rows, w.connections, m) || IsBridgeMatch(rows, w.book, m)
    ensures k < |rows| && m.a == Existing(rows[k].i) && rows[k].channel == "outlook"
    ensures m.blocked <==> IsGenericRole(rows[k].handle)
  {
    hide IsGenericRole, LowerText;
    if IsEmailMatch(rows, w.connections, m) {
      var r, c := EmailSources(rows, w.connections, m);
      k :| 0 <= k < |rows| && rows[k] == r;
    } else {
      hide IsFirstWhatsapp, HasOutlook, HasNumber;
      var e, j: nat, l: nat, a, b :| e in w.book && Links(rows, e, j, l, a, b, m);
      k :| 0 <= k < |rows| && rows[k].channel == "outlook" && rows[k].handle == LowerText(e.emails[j]) && rows[k].i == a
        && forall x :: k < x < |rows| ==> rows[x].channel != "outlook" || rows[x].handle != LowerText(e.emails[j]);
    }
  }

  /**
    Whatever the rules find: every merge that a run of one logs is an automatic one, by one of the two
    rules that may merge, of an Outlook identity whose address is no role's.
   */
  lemma NoRoleAddressIsMerged(w: World, o: Oracle, st: State, rule: Rule, k: nat)
    requires Runnable(w, o, st)
    ensures var (s, t) := (st.store, RuleRun(w, o, st, rule).store);
      && s.log <= t.log
      && (|s.log| <= k < |t.log| ==>
            && rule in {ExactEmail, ContactBridge} && t.log[k].decisionKind == "automatic"
            && t.log[k].a in s.identities && s.identities[t.log[k].a].channel == "outlook"
            && !IsGenericRole(s.identities[t.log[k].a].handle))
  {
    hide Supplies, Indexed, ProcessedAll, Matches, Unblocked, IsGenericRole, Scans;
    MatchesAreResolvable(w, st, rule);
    OnlyUnblockedMerge(st, o, Matches(w, st.store, rule));
    var t := RuleRun(w, o, st, rule);
    if |st.store.log| <= k < |t.store.log| {
      UnblockedIsPersonal(w, st, t, rule, t.store.log[k].a, t.store.log[k].b);
    }
  }
}
