/**
  The five matching rules run over the store: what each match found becomes, what a rule counts, and
  why running the whole list again adds nothing.
 */
module RuleRuns {
  import opened Wrappers
  import opened StoreModel
  import opened SafetyChecks
  import opened Runs
  import opened Connections
  import opened RuleMatching
  import opened ReviewQueue

  /** The store with its unique index of LinkedIn handles. */
  datatype State = State(store: Store, profiles: map<string, IdentityId>)

  /** The ids and names that come up: an identity's by its handle, a merge's by its place in the log. */
  datatype Oracle = Oracle(
    newIdentity: string -> IdentityId,
    newPerson: nat -> PersonId,
    names: nat -> Names)

  /** New ids are new, and different handles get different ids. */
  ghost predicate Supplies(o: Oracle, st: State) {
    && (forall h :: h !in st.profiles ==> o.newIdentity(h) !in st.store.identities)
    && (forall h, g :: h != g ==> o.newIdentity(h) != o.newIdentity(g))
  }

  /** The index holds exactly the LinkedIn rows, each under its handle. */
  ghost predicate Indexed(st: State) {
    && (forall h :: h in st.profiles ==>
          && st.profiles[h] in st.store.identities
          && st.store.identities[st.profiles[h]].channel == "linkedin"
          && st.store.identities[st.profiles[h]].handle == h)
    && (forall i :: i in st.store.identities && st.store.identities[i].channel == "linkedin" ==>
          st.store.identities[i].handle in st.profiles && st.profiles[st.store.identities[i].handle] == i)
  }

  // ---------------------------------------------------------------- one match

  /** insert the LinkedIn identity, or fill in its name if it has none. */
  function Upserted(st: State, o: Oracle, e: End): State {
    match e
    case Existing(_) => st
    case Linkedin(h, name) =>
      if h !in st.profiles then
        var row := Identity("linkedin", h, name, None, false);
        State(st.store.(identities := st.store.identities[o.newIdentity(h) := row]),
              st.profiles[h := o.newIdentity(h)])
      else
        var i := st.profiles[h];
        if i in st.store.identities && st.store.identities[i].displayName == None then
          st.(store := st.store.(identities := st.store.identities[i := st.store.identities[i].(displayName := name)]))
        else st
  }

  function IdOf(st: State, e: End): IdentityId
    requires e.Linkedin? ==> e.handle in st.profiles
  {
    match e case Existing(i) => i case Linkedin(h, _) => st.profiles[h]
  }

  function Upserted2(st: State, o: Oracle, m: Match): State {
    Upserted(Upserted(st, o, m.a), o, m.b)
  }

  predicate Ready(st: State, e: End) {
    match e
    case Existing(i) => i in st.store.identities
    case Linkedin(h, _) => h in st.profiles && st.profiles[h] in st.store.identities
  }

  /** Queue a match, or propose it and perhaps merge it; a pair that has a candidate is left alone. */
  function Decided(s: Store, o: Oracle, a: IdentityId, b: IdentityId, m: Match): Store
    requires a in s.identities && b in s.identities
  {
    if m.automatic then Proposed(s, a, b, m.rule, m.blocked, o.newPerson(|s.log|), o.names(|s.log|))
    else if HasCandidate(s.candidates, a, b) then s
    else Appended(s, Candidate(a, b, m.rule, Pending))
  }

  function Processed(st: State, o: Oracle, m: Match): State {
    var u := Upserted2(st, o, m);
    if Ready(u, m.a) && Ready(u, m.b) then u.(store := Decided(u.store, o, IdOf(u, m.a), IdOf(u, m.b), m)) else u
  }

  function ProcessedAll(st: State, o: Oracle, matches: seq<Match>): State
    decreases |matches|
  {
    if matches == [] then st
    else Processed(ProcessedAll(st, o, matches[..|matches| - 1]), o, matches[|matches| - 1])
  }

  // ---------------------------------------------------------------- what rules leave alone

  /** What any later work of rules, reviews, merges and extraction may do to the store. */
  ghost predicate Grows(s: State, t: State) {
    && (forall i :: i in s.store.identities ==> i in t.store.identities)
    && (forall i :: i in s.store.identities ==> RowGrows(s.store.identities[i], t.store.identities[i]))
    && (forall h :: h in s.profiles ==> h in t.profiles && t.profiles[h] == s.profiles[h])
    && (forall a, b :: HasCandidate(s.store.candidates, a, b) ==> HasCandidate(t.store.candidates, a, b))
  }

  /** A resolved identity stays resolved; only a LinkedIn name may be filled in. */
  ghost predicate RowGrows(x: Identity, y: Identity) {
    && y.channel == x.channel && y.handle == x.handle && y.isSelf == x.isSelf
    && (x.personId.Some? ==> y.personId.Some?)
    && (x.channel != "linkedin" || x.displayName.Some? ==> y.displayName == x.displayName)
  }

  lemma GrowsTransitively(s: State, t: State, u: State)
    requires Grows(s, t) && Grows(t, u)
    ensures Grows(s, u)
  {
    forall i | i in s.store.identities ensures RowGrows(s.store.identities[i], u.store.identities[i]) {
      assert RowGrows(s.store.identities[i], t.store.identities[i]);
      assert RowGrows(t.store.identities[i], u.store.identities[i]);
    }
  }

  lemma UpsertGrows(st: State, o: Oracle, e: End)
    requires Indexed(st) && Supplies(o, st)
    ensures Grows(st, Upserted(st, o, e)) && Indexed(Upserted(st, o, e)) && Supplies(o, Upserted(st, o, e))
    ensures e.Linkedin? ==> Ready(Upserted(st, o, e), e)
  {
    UpsertKeepsRows(st, o, e);
    hide Grows, Supplies;
  }

  lemma UpsertKeepsRows(st: State, o: Oracle, e: End)
    requires Indexed(st) && Supplies(o, st)
    ensures Grows(st, Upserted(st, o, e)) && Supplies(o, Upserted(st, o, e))
  {
  }

  lemma MergedGrows(s: Store, a: IdentityId, b: IdentityId, rule: string, kind: string, newPerson: PersonId,
                    names: Names, i: IdentityId)
    requires a in s.identities && b in s.identities && i in s.identities
    ensures i in Merged(s, a, b, rule, kind, newPerson, names).identities
    ensures RowGrows(s.identities[i], Merged(s, a, b, rule, kind, newPerson, names).identities[i])
  {
  }

  lemma DecisionWrites(s: Store, o: Oracle, a: IdentityId, b: IdentityId, m: Match)
    requires a in s.identities && b in s.identities
    ensures HasCandidate(s.candidates, a, b) ==> Decided(s, o, a, b, m).candidates == s.candidates
    ensures !HasCandidate(s.candidates, a, b) ==>
      exists status :: Decided(s, o, a, b, m).candidates == s.candidates + [Candidate(a, b, m.rule, status)]
                       && (!m.automatic ==> status == Pending)
  {
    hide AutomaticStatus;
    var status := if m.automatic then AutomaticStatus(s, a, b, m.blocked) else Pending;
    if !HasCandidate(s.candidates, a, b) {
      assert Decided(s, o, a, b, m).candidates == s.candidates + [Candidate(a, b, m.rule, status)];
    }
  }

  lemma DecisionKeepsRows(s: Store, o: Oracle, a: IdentityId, b: IdentityId, m: Match)
    requires a in s.identities && b in s.identities
    ensures var t := Decided(s, o, a, b, m);
      && t.identities.Keys == s.identities.Keys
      && forall i :: i in s.identities ==> RowGrows(s.identities[i], t.identities[i])
  {
    hide AutomaticStatus, RowGrows;
    var (queued, t) := (Appended(s, Candidate(a, b, m.rule, Confirmed)), Decided(s, o, a, b, m));
    forall i | i in s.identities ensures i in t.identities && RowGrows(s.identities[i], t.identities[i]) {
      MergedGrows(queued, a, b, m.rule, "automatic", o.newPerson(|s.log|), o.names(|s.log|), i);
      SameRowGrows(s.identities[i]);
    }
  }

  lemma SameRowGrows(x: Identity)
    ensures RowGrows(x, x)
  {
  }

  lemma DecidedGrows(st: State, o: Oracle, a: IdentityId, b: IdentityId, m: Match)
    requires a in st.store.identities && b in st.store.identities && Indexed(st) && Supplies(o, st)
    ensures var t := st.(store := Decided(st.store, o, a, b, m));
      Grows(st, t) && Indexed(t) && Supplies(o, t) && HasCandidate(t.store.candidates, a, b)
  {
    hide Decided;
    DecisionKeepsRows(st.store, o, a, b, m);
    DecisionWrites(st.store, o, a, b, m);
    var (before, after) := (st.store.candidates, Decided(st.store, o, a, b, m).candidates);
    assert !HasCandidate(before, a, b) ==> after[|before|].a == a && after[|before|].b == b;
    forall x, y | HasCandidate(before, x, y) ensures HasCandidate(after, x, y) {
      var c :| 0 <= c < |before| && ((before[c].a == x && before[c].b == y) || (before[c].a == y && before[c].b == x));
      assert after[c] == before[c];
    }
  }

  // ---------------------------------------------------------------- settled matches

  /** Nothing is left to do about a match: its identities exist with their names, and the pair has a candidate. */
  ghost predicate Settled(st: State, m: Match) {
    && Named(st, m.a) && Named(st, m.b)
    && HasCandidate(st.store.candidates, IdOf(st, m.a), IdOf(st, m.b))
  }

  ghost predicate Named(st: State, e: End) {
    Ready(st, e) && (e.Linkedin? ==> e.name == None || st.store.identities[st.profiles[e.handle]].displayName.Some?)
  }

  lemma SettledIsFixed(st: State, o: Oracle, m: Match)
    requires Settled(st, m)
    ensures Processed(st, o, m) == st
  {
    UpsertOfNamed(st, o, m.a);
    UpsertOfNamed(st, o, m.b);
  }

  lemma UpsertOfNamed(st: State, o: Oracle, e: End)
    requires Named(st, e)
    ensures Upserted(st, o, e) == st
  {
    if e.Linkedin? {
      var i := st.profiles[e.handle];
      assert st.store.identities[i := st.store.identities[i]] == st.store.identities;
    }
  }

  lemma NamedIsStable(s: State, t: State, e: End)
    requires Grows(s, t) && Named(s, e)
    ensures Named(t, e) && IdOf(t, e) == IdOf(s, e)
  {
    if e.Linkedin? {
      assert RowGrows(s.store.identities[s.profiles[e.handle]], t.store.identities[s.profiles[e.handle]]);
    }
  }

  lemma SettledIsStable(s: State, t: State, m: Match)
    requires Grows(s, t) && Settled(s, m)
    ensures Settled(t, m)
  {
    hide Grows, Named;
    NamedIsReady(s, m.a);
    NamedIsReady(s, m.b);
    NamedIsStable(s, t, m.a);
    NamedIsStable(s, t, m.b);
    CandidatesStay(s, t, IdOf(s, m.a), IdOf(s, m.b));
  }

  lemma CandidatesStay(s: State, t: State, a: IdentityId, b: IdentityId)
    requires Grows(s, t) && HasCandidate(s.store.candidates, a, b)
    ensures HasCandidate(t.store.candidates, a, b)
  {
  }

  /** An end that can be resolved: a stored identity, or any LinkedIn handle. */
  predicate Resolvable(st: State, e: End) {
    e.Existing? ==> e.i in st.store.identities
  }

  lemma UpsertNames(st: State, o: Oracle, e: End)
    requires Indexed(st) && Supplies(o, st) && Resolvable(st, e)
    ensures Named(Upserted(st, o, e), e)
  {
  }

  /** Both ends of a match upserted: they exist with their names. */
  lemma BothUpserted(st: State, o: Oracle, m: Match)
    requires Indexed(st) && Supplies(o, st) && Resolvable(st, m.a) && Resolvable(st, m.b)
    ensures var u := Upserted2(st, o, m);
      Grows(st, u) && Indexed(u) && Supplies(o, u) && Named(u, m.a) && Named(u, m.b)
  {
    hide Grows, Supplies, Indexed, Upserted, Named;
    var x := Upserted(st, o, m.a);
    UpsertGrows(st, o, m.a);
    UpsertNames(st, o, m.a);
    StaysResolvable(st, x, m.b);
    var u := Upserted(x, o, m.b);
    UpsertGrows(x, o, m.b);
    UpsertNames(x, o, m.b);
    NamedIsStable(x, u, m.a);
    GrowsTransitively(st, x, u);
  }

  lemma ProcessedSettles(st: State, o: Oracle, m: Match)
    requires Indexed(st) && Supplies(o, st) && Resolvable(st, m.a) && Resolvable(st, m.b)
    ensures var t := Processed(st, o, m);
      Grows(st, t) && Indexed(t) && Supplies(o, t) && Settled(t, m)
  {
    hide Grows, Supplies, Indexed, Decided, Upserted2, Named;
    var (u, t) := (Upserted2(st, o, m), Processed(st, o, m));
    BothUpserted(st, o, m);
    NamedIsReady(u, m.a);
    NamedIsReady(u, m.b);
    DecidedGrows(u, o, IdOf(u, m.a), IdOf(u, m.b), m);
    GrowsTransitively(st, u, t);
    NamedIsStable(u, t, m.a);
    NamedIsStable(u, t, m.b);
  }

  lemma NamedIsReady(st: State, e: End)
    requires Named(st, e)
    ensures Ready(st, e) && IdOf(st, e) in st.store.identities
  {
  }

  lemma StaysResolvable(s: State, t: State, e: End)
    requires Grows(s, t) && Resolvable(s, e)
    ensures Resolvable(t, e)
  {
  }

  ghost predicate AllResolvable(st: State, matches: seq<Match>) {
    forall m :: m in matches ==> Resolvable(st, m.a) && Resolvable(st, m.b)
  }

  lemma {:induction false} AllProcessedSettle(st: State, o: Oracle, matches: seq<Match>)
    requires Indexed(st) && Supplies(o, st) && AllResolvable(st, matches)
    ensures var t := ProcessedAll(st, o, matches);
      && Grows(st, t) && Indexed(t) && Supplies(o, t)
      && (forall m :: m in matches ==> Settled(t, m))
    decreases |matches|
  {
    hide Grows, Supplies, Indexed, Processed, Settled, Resolvable;
    if matches == [] {
      GrowsFromItself(st);
    } else {
      var (rest, last) := (matches[..|matches| - 1], matches[|matches| - 1]);
      assert last in matches && matches == rest + [last];
      AllProcessedSettle(st, o, rest);
      var mid := ProcessedAll(st, o, rest);
      var t := Processed(mid, o, last);
      StaysResolvable(st, mid, last.a);
      StaysResolvable(st, mid, last.b);
      ProcessedSettles(mid, o, last);
      GrowsTransitively(st, mid, t);
      forall m | m in rest ensures Settled(t, m) {
        SettledIsStable(mid, t, m);
      }
    }
  }

  lemma GrowsFromItself(st: State)
    ensures Grows(st, st)
  {
  }

  lemma {:induction false} SettledMatchesAreFixed(st: State, o: Oracle, matches: seq<Match>)
    requires forall m :: m in matches ==> Settled(st, m)
    ensures ProcessedAll(st, o, matches) == st
    decreases |matches|
  {
    if matches != [] {
      SettledMatchesAreFixed(st, o, matches[..|matches| - 1]);
      SettledIsFixed(st, o, matches[|matches| - 1]);
    }
  }

  // ---------------------------------------------------------------- the rules

  /** The tables the rules read besides the store, and the order in which identity rows come. */
  datatype World = World(
    order: seq<IdentityId>,
    connections: seq<Connection>,
    book: seq<AddressBookEntry>,
    messages: seq<SignedMessage>,
    lastAutomated: map<IdentityId, bool>)

  datatype Rule = ExactEmail | ContactBridge | SignaturePhone | OutlookDedupe | LinkedinCorrelation

  function RowOf(s: Store, i: IdentityId): Row {
    if i in s.identities then
      var r := s.identities[i];
      Row(i, r.channel, r.handle, r.displayName, r.isSelf)
    else Row(i, "", "", None, false)
  }

  function RowsOf(s: Store, order: seq<IdentityId>): seq<Row> {
    seq(|order|, k requires 0 <= k < |order| => RowOf(s, order[k]))
  }

  /** Unresolved identities whose own most recent message is not automated. */
  function Undecided(s: Store, w: World): set<IdentityId> {
    set i | i in w.lastAutomated && i in s.identities && s.identities[i].personId == None && !w.lastAutomated[i]
  }

  function Matches(w: World, s: Store, rule: Rule): seq<Match> {
    var rows := RowsOf(s, w.order);
    match rule
    case ExactEmail => EmailMatches(rows, w.connections)
    case ContactBridge => BridgeMatches(w.book, OutlookByHandle(rows), WhatsappByDigits(rows, {}))
    case SignaturePhone => SignatureMatches(w.messages, WhatsappByDigits(rows, SelfDigits(rows)))
    case OutlookDedupe => DedupeMatches(rows, Undecided(s, w))
    case LinkedinCorrelation => Correlations(w.connections, rows)
  }

  /** The method a rule gives its candidates. */
  function Label(rule: Rule): string {
    match rule
    case ExactEmail => "exact_email"
    case ContactBridge => "contact_bridge"
    case SignaturePhone => "email_signature_phone"
    case OutlookDedupe => "outlook_same_channel_dedupe"
    case LinkedinCorrelation => "linkedin_name_company"
  }

  lemma MatchIsLabelled(w: World, s: Store, rule: Rule, m: Match)
    requires m in Matches(w, s, rule)
    ensures m.rule == Label(rule)
  {
    var rows := RowsOf(s, w.order);
    match rule
    case ExactEmail => EmailMatchIff(rows, w.connections, m);
    case ContactBridge => BridgeIff(w.book, OutlookByHandle(rows), WhatsappByDigits(rows, {}), m);
    case SignaturePhone => SignatureIff(w.messages, WhatsappByDigits(rows, SelfDigits(rows)), m);
    case OutlookDedupe =>
      DedupeIff(rows, Undecided(s, w), m);
      var name :| IsNamedPair(rows, name, Undecided(s, w), m);
    case LinkedinCorrelation => CorrelationIff(w.connections, rows, m);
  }

  function RuleRun(w: World, o: Oracle, st: State, rule: Rule): State {
    ProcessedAll(st, o, Matches(w, st.store, rule))
  }

  /** The scanned identities and the message senders exist and are not LinkedIn's. */
  ghost predicate Scans(w: World, s: Store) {
    && (forall i :: i in w.order ==> i in s.identities && s.identities[i].channel != "linkedin")
    && (forall m :: m in w.messages && m.sender.Some? ==> m.sender.value in s.identities)
  }

  // ---------------------------------------------------------------- matches are stable

  lemma RowsAreStable(w: World, s: State, t: State)
    requires Scans(w, s.store) && Grows(s, t)
    ensures RowsOf(t.store, w.order) == RowsOf(s.store, w.order) && Scans(w, t.store)
  {
    forall k | 0 <= k < |w.order| ensures RowOf(t.store, w.order[k]) == RowOf(s.store, w.order[k]) {
      assert w.order[k] in w.order;
      assert RowGrows(s.store.identities[w.order[k]], t.store.identities[w.order[k]]);
    }
  }

  /** Over the same rows, connections, records and messages, no growth of the store makes a rule find a new pair. */
  lemma MatchesOnlyShrink(w: World, s: State, t: State, rule: Rule)
    requires Scans(w, s.store) && Grows(s, t)
    requires w.lastAutomated.Keys <= s.store.identities.Keys
    ensures forall m :: m in Matches(w, t.store, rule) ==> m in Matches(w, s.store, rule)
  {
    RowsAreStable(w, s, t);
    if rule == OutlookDedupe {
      forall i | i in Undecided(t.store, w) ensures i in Undecided(s.store, w) {
        assert RowGrows(s.store.identities[i], t.store.identities[i]);
      }
      FewerCandidatesFewerPairs(RowsOf(s.store, w.order), Undecided(t.store, w), Undecided(s.store, w));
    }
  }

  // ---------------------------------------------------------------- what matches name exists

  ghost predicate RowsKnown(rows: seq<Row>, ids: set<IdentityId>) {
    forall r :: r in rows ==> r.i in ids
  }

  ghost predicate Known(matches: seq<Match>, ids: set<IdentityId>) {
    forall m :: m in matches ==> (m.a.Existing? ==> m.a.i in ids) && (m.b.Existing? ==> m.b.i in ids)
  }

  lemma {:induction false} EmailMatchesKnown(rows: seq<Row>, connections: seq<Connection>, ids: set<IdentityId>)
    requires RowsKnown(rows, ids)
    ensures Known(EmailMatches(rows, connections), ids)
    decreases |rows|
  {
    if rows != [] {
      EmailMatchesKnown(rows[..|rows| - 1], connections, ids);
      assert rows[|rows| - 1] in rows;
      EmailMatchesOfKnown(rows[|rows| - 1], connections, ids);
    }
  }

  lemma {:induction false} EmailMatchesOfKnown(r: Row, connections: seq<Connection>, ids: set<IdentityId>)
    requires r.i in ids
    ensures Known(EmailMatchesOf(r, connections), ids)
    decreases |connections|
  {
    if connections != [] {
      EmailMatchesOfKnown(r, connections[..|connections| - 1], ids);
    }
  }

  lemma {:induction false} OutlookKnown(rows: seq<Row>, ids: set<IdentityId>)
    requires RowsKnown(rows, ids)
    ensures OutlookByHandle(rows).Values <= ids
    decreases |rows|
  {
    if rows != [] {
      OutlookKnown(rows[..|rows| - 1], ids);
      assert rows[|rows| - 1] in rows;
    }
  }

  lemma {:induction false} WhatsappKnown(rows: seq<Row>, excluded: set<string>, ids: set<IdentityId>)
    requires RowsKnown(rows, ids)
    ensures WhatsappByDigits(rows, excluded).Values <= ids
    decreases |rows|
  {
    if rows != [] {
      WhatsappKnown(rows[..|rows| - 1], excluded, ids);
      assert rows[|rows| - 1] in rows;
    }
  }

  lemma {:induction false} BridgeMatchesKnown(book: seq<AddressBookEntry>, outlook: map<string, IdentityId>,
                                              whatsapp: map<string, IdentityId>, ids: set<IdentityId>)
    requires outlook.Values <= ids && whatsapp.Values <= ids
    ensures Known(BridgeMatches(book, outlook, whatsapp), ids)
    decreases |book|
  {
    if book != [] {
      BridgeMatchesKnown(book[..|book| - 1], outlook, whatsapp, ids);
      forall key | key in outlook ensures outlook[key] in ids {
        assert outlook[key] in outlook.Values;
      }
      forall key | key in whatsapp ensures whatsapp[key] in ids {
        assert whatsapp[key] in whatsapp.Values;
      }
    }
  }

  lemma {:induction false} SignatureMatchesKnown(messages: seq<SignedMessage>, whatsapp: map<string, IdentityId>,
                                                 ids: set<IdentityId>)
    requires whatsapp.Values <= ids && forall m :: m in messages && m.sender.Some? ==> m.sender.value in ids
    ensures Known(SignatureMatches(messages, whatsapp), ids)
    decreases |messages|
  {
    if messages != [] {
      var last := messages[|messages| - 1];
      SignatureMatchesKnown(messages[..|messages| - 1], whatsapp, ids);
      assert last in messages;
      if last.sender.Some? {
        SignerMatchesKnown(last.sender.value, last.signaturePhones, whatsapp, ids);
      }
    }
  }

  lemma {:induction false} SignerMatchesKnown(sender: IdentityId, phones: seq<string>,
                                              whatsapp: map<string, IdentityId>,
                                              ids: set<IdentityId>)
    requires whatsapp.Values <= ids && sender in ids
    ensures Known(SignatureMatchesOf(sender, phones, whatsapp), ids)
    decreases |phones|
  {
    if phones != [] {
      SignerMatchesKnown(sender, phones[..|phones| - 1], whatsapp, ids);
      forall key | key in whatsapp ensures whatsapp[key] in ids {
        assert whatsapp[key] in whatsapp.Values;
      }
    }
  }

  lemma DedupeMatchesKnown(rows: seq<Row>, candidates: set<IdentityId>, ids: set<IdentityId>)
    requires RowsKnown(rows, ids)
    ensures Known(DedupeMatches(rows, candidates), ids)
  {
    forall m | m in DedupeMatches(rows, candidates)
      ensures m.a.Existing? && m.b.Existing? && m.a.i in ids && m.b.i in ids
    {
      var name := PairHasName(rows, NamesInOrder(rows, candidates), candidates, m);
      var group := Namesakes(rows, name, candidates);
      PairsAreOrderedPairs(group, m);
      var i, j :| 0 <= i < j < |group| && m == DedupePair(group[i], group[j]);
      NamesakeIff(rows, name, candidates, group[i]);
      NamesakeIff(rows, name, candidates, group[j]);
    }
  }

  lemma {:induction false} CorrelationsKnown(connections: seq<Connection>, rows: seq<Row>, ids: set<IdentityId>)
    requires RowsKnown(rows, ids)
    ensures Known(Correlations(connections, rows), ids)
    decreases |connections|
  {
    if connections != [] {
      CorrelationsKnown(connections[..|connections| - 1], rows, ids);
      CorrelationsOfKnown(connections[|connections| - 1], rows, ids);
    }
  }

  lemma {:induction false} CorrelationsOfKnown(c: Connection, rows: seq<Row>, ids: set<IdentityId>)
    requires RowsKnown(rows, ids)
    ensures Known(CorrelationsOf(c, rows), ids)
    decreases |rows|
  {
    if rows != [] {
      CorrelationsOfKnown(c, rows[..|rows| - 1], ids);
      assert rows[|rows| - 1] in rows;
    }
  }

  /** No rule proposes an identity that is not stored. */
  lemma MatchesAreResolvable(w: World, st: State, rule: Rule)
    requires Scans(w, st.store)
    ensures AllResolvable(st, Matches(w, st.store, rule))
  {
    var (rows, ids) := (RowsOf(st.store, w.order), st.store.identities.Keys);
    assert RowsKnown(rows, ids);
    assert Known(Matches(w, st.store, rule), ids) by {
      match rule
      case ExactEmail => EmailMatchesKnown(rows, w.connections, ids);
      case ContactBridge =>
        OutlookKnown(rows, ids);
        WhatsappKnown(rows, {}, ids);
        BridgeMatchesKnown(w.book, OutlookByHandle(rows), WhatsappByDigits(rows, {}), ids);
      case SignaturePhone =>
        WhatsappKnown(rows, SelfDigits(rows), ids);
        SignatureMatchesKnown(w.messages, WhatsappByDigits(rows, SelfDigits(rows)), ids);
      case OutlookDedupe => DedupeMatchesKnown(rows, Undecided(st.store, w), ids);
      case LinkedinCorrelation => CorrelationsKnown(w.connections, rows, ids);
    }
  }

  // ---------------------------------------------------------------- running a rule again

  /** A store the rules can be run on. */
  ghost predicate Runnable(w: World, o: Oracle, st: State) {
    && Indexed(st) && Supplies(o, st) && Scans(w, st.store)
    && w.lastAutomated.Keys <= st.store.identities.Keys
  }

  lemma RuleRunSettles(w: World, o: Oracle, st: State, rule: Rule)
    requires Runnable(w, o, st)
    ensures var t := RuleRun(w, o, st, rule);
      Grows(st, t) && Runnable(w, o, t) && forall m :: m in Matches(w, st.store, rule) ==> Settled(t, m)
  {
    hide Supplies, Indexed, Matches, Settled, ProcessedAll;
    MatchesAreResolvable(w, st, rule);
    AllProcessedSettle(st, o, Matches(w, st.store, rule));
    RowsAreStable(w, st, RuleRun(w, o, st, rule));
  }

  /** Nothing any rule of the list finds in `t` has anything left to do. */
  ghost predicate RuleIsDone(w: World, t: State, rule: Rule) {
    forall m :: m in Matches(w, t.store, rule) ==> Settled(t, m)
  }

  lemma DoneIsStable(w: World, s: State, t: State, u: State, rule: Rule)
    requires Scans(w, s.store) && w.lastAutomated.Keys <= s.store.identities.Keys
    requires Grows(s, t) && Grows(t, u) && forall m :: m in Matches(w, s.store, rule) ==> Settled(t, m)
    ensures RuleIsDone(w, u, rule)
  {
    hide Settled, Matches, Grows;
    GrowsTransitively(s, t, u);
    MatchesOnlyShrink(w, s, u, rule);
    forall m | m in Matches(w, u.store, rule) ensures Settled(u, m) {
      SettledIsStable(t, u, m);
    }
  }

  lemma DoneStaysDone(w: World, s: State, t: State, rule: Rule)
    requires Scans(w, s.store) && w.lastAutomated.Keys <= s.store.identities.Keys
    requires Grows(s, t) && RuleIsDone(w, s, rule)
    ensures RuleIsDone(w, t, rule)
  {
    GrowsFromItself(s);
    DoneIsStable(w, s, s, t, rule);
  }

  lemma DoneRuleIsIdle(w: World, o: Oracle, t: State, rule: Rule)
    requires RuleIsDone(w, t, rule)
    ensures RuleRun(w, o, t, rule) == t
  {
    hide Matches, Settled, ProcessedAll;
    SettledMatchesAreFixed(t, o, Matches(w, t.store, rule));
  }

  // ---------------------------------------------------------------- what a rule counts

  /** The pairs among the matches that had no candidate when their turn came. */
  function Written(st: State, o: Oracle, matches: seq<Match>): nat
    decreases |matches|
  {
    if matches == [] then 0
    else
      var (rest, last) := (matches[..|matches| - 1], matches[|matches| - 1]);
      Written(st, o, rest) + (if IsNew(ProcessedAll(st, o, rest), o, last) then 1 else 0)
  }

  predicate IsNew(st: State, o: Oracle, m: Match) {
    var u := Upserted2(st, o, m);
    Ready(u, m.a) && Ready(u, m.b) && !HasCandidate(u.store.candidates, IdOf(u, m.a), IdOf(u, m.b))
  }

  lemma UpsertTouchesOnlyProfiles(st: State, o: Oracle, e: End)
    ensures var (s, t) := (st.store, Upserted(st, o, e).store);
      t.candidates == s.candidates && t.log == s.log && t.persons == s.persons
  {
  }

  lemma ProcessedWrites(st: State, o: Oracle, m: Match)
    ensures var (before, after) := (st.store.candidates, Processed(st, o, m).store.candidates);
      && before <= after
      && |after| == |before| + (if IsNew(st, o, m) then 1 else 0)
      && (OnePerPair(before) ==> OnePerPair(after))
      && (IsNew(st, o, m) && !m.automatic ==> after[|before|].status == Pending)
  {
    hide OnePerPair, Upserted, Decided;
    UpsertTouchesOnlyProfiles(st, o, m.a);
    UpsertTouchesOnlyProfiles(Upserted(st, o, m.a), o, m.b);
    var u := Upserted2(st, o, m);
    var (before, after) := (st.store.candidates, Processed(st, o, m).store.candidates);
    if Ready(u, m.a) && Ready(u, m.b) {
      DecisionWrites(u.store, o, IdOf(u, m.a), IdOf(u, m.b), m);
      if IsNew(st, o, m) && OnePerPair(before) {
        AppendKeepsOnePerPair(before, after[|before|]);
      }
    }
  }

  /**
    A rule's count is the number of candidates it added; it changes no older candidate and gives no
    pair a second one.
   */
  lemma {:induction false} RuleCounts(st: State, o: Oracle, matches: seq<Match>)
    ensures var (s, t) := (st.store, ProcessedAll(st, o, matches).store);
      && s.candidates <= t.candidates
      && |t.candidates| == |s.candidates| + Written(st, o, matches)
      && (OnePerPair(s.candidates) ==> OnePerPair(t.candidates))
    decreases |matches|
  {
    hide OnePerPair, Processed, IsNew;
    if matches != [] {
      var (rest, last) := (matches[..|matches| - 1], matches[|matches| - 1]);
      RuleCounts(st, o, rest);
      ProcessedWrites(ProcessedAll(st, o, rest), o, last);
    }
  }

  /** No person row, log row or identity's person differs. */
  ghost predicate SamePersons(s: Store, t: Store) {
    && t.log == s.log && t.persons == s.persons
    && forall i :: i in s.identities ==> i in t.identities && t.identities[i].personId == s.identities[i].personId
  }

  /** A rule that only queues merges nothing: it adds pending candidates and moves no stored identity. */
  lemma {:induction false} QueueOnlyRulesMergeNothing(st: State, o: Oracle, matches: seq<Match>)
    requires Indexed(st) && Supplies(o, st) && forall m :: m in matches ==> !m.automatic
    ensures var t := ProcessedAll(st, o, matches);
      && SamePersons(st.store, t.store) && Indexed(t) && Supplies(o, t)
      && st.store.candidates <= t.store.candidates
      && forall c :: |st.store.candidates| <= c < |t.store.candidates| ==> t.store.candidates[c].status == Pending
    decreases |matches|
  {
    hide Processed, IsNew, Indexed, Supplies, OnePerPair;
    if matches != [] {
      var (rest, last) := (matches[..|matches| - 1], matches[|matches| - 1]);
      QueueOnlyRulesMergeNothing(st, o, rest);
      QueuedMatchMergesNothing(ProcessedAll(st, o, rest), o, last);
      ProcessedWrites(ProcessedAll(st, o, rest), o, last);
    }
  }

  lemma UpsertKeepsPersons(st: State, o: Oracle, e: End)
    requires Indexed(st) && Supplies(o, st)
    ensures SamePersons(st.store, Upserted(st, o, e).store)
  {
  }

  lemma QueuedMatchMergesNothing(st: State, o: Oracle, m: Match)
    requires Indexed(st) && Supplies(o, st) && !m.automatic
    ensures var t := Processed(st, o, m);
      SamePersons(st.store, t.store) && Indexed(t) && Supplies(o, t)
  {
    hide Upserted, Grows, Indexed, Supplies;
    var x := Upserted(st, o, m.a);
    UpsertGrows(st, o, m.a);
    UpsertGrows(x, o, m.b);
    UpsertKeepsPersons(st, o, m.a);
    UpsertKeepsPersons(x, o, m.b);
    var u := Upserted(x, o, m.b);
    if Ready(u, m.a) && Ready(u, m.b) {
      QueueingKeepsPersons(u, o, IdOf(u, m.a), IdOf(u, m.b), m);
    }
  }

  lemma QueueingKeepsPersons(st: State, o: Oracle, a: IdentityId, b: IdentityId, m: Match)
    requires Indexed(st) && Supplies(o, st) && a in st.store.identities && b in st.store.identities && !m.automatic
    ensures var t := st.(store := Decided(st.store, o, a, b, m));
      SamePersons(st.store, t.store) && Indexed(t) && Supplies(o, t)
  {
  }

  /** The candidate names the two stored identities of one of the matches. */
  ghost predicate IsEndsOf(matches: seq<Match>, c: Candidate) {
    exists m :: m in matches && m.a.Existing? && m.b.Existing? && m.a.i == c.a && m.b.i == c.b
  }

  lemma {:induction false} NewCandidatesAreMatches(st: State, o: Oracle, matches: seq<Match>)
    requires forall m :: m in matches ==> m.a.Existing? && m.b.Existing?
    ensures var (before, after) := (st.store.candidates, ProcessedAll(st, o, matches).store.candidates);
      && before <= after
      && forall c :: |before| <= c < |after| ==> IsEndsOf(matches, after[c])
    decreases |matches|
  {
    if matches != [] {
      var (rest, last) := (matches[..|matches| - 1], matches[|matches| - 1]);
      var mid := ProcessedAll(st, o, rest);
      NewCandidatesAreMatches(st, o, rest);
      if Ready(mid, last.a) && Ready(mid, last.b) {
        DecisionWrites(mid.store, o, last.a.i, last.b.i, last);
      }
      assert last in matches && forall m :: m in rest ==> m in matches;
      assert forall c :: IsEndsOf(rest, c) ==> IsEndsOf(matches, c);
      var after := ProcessedAll(st, o, matches).store.candidates;
      forall c | |st.store.candidates| <= c < |after| ensures IsEndsOf(matches, after[c]) {
        if c < |mid.store.candidates| {
          assert after[c] == mid.store.candidates[c];
        } else {
          assert last.a.i == after[c].a && last.b.i == after[c].b;
        }
      }
    }
  }

  /**
    For every store, the signature rule never confirms or merges anything, and never queues a
    candidate whose WhatsApp side has the number of an identity flagged as the user's own: not of any
    flagged row, with a device suffix or without, even where the queued row itself is not flagged.
   */
  lemma SignatureRuleNeverQueuesOwnNumber(w: World, o: Oracle, st: State, own: IdentityId)
    requires Runnable(w, o, st)
    requires own in w.order && st.store.identities[own].channel == "whatsapp" && st.store.identities[own].isSelf
    requires PhoneDigits(st.store.identities[own].handle).Some?
    ensures var (s, t) := (st.store, RuleRun(w, o, st, SignaturePhone).store);
      && SamePersons(s, t) && s.candidates <= t.candidates
      && forall c :: |s.candidates| <= c < |t.candidates| ==>
           && t.candidates[c].status == Pending && t.candidates[c].b in s.identities
           && PhoneDigits(s.identities[t.candidates[c].b].handle) != PhoneDigits(s.identities[own].handle)
  {
    hide Supplies, Indexed, ProcessedAll, SamePersons, SelfDigits;
    var rows := RowsOf(st.store, w.order);
    var matches := Matches(w, st.store, SignaturePhone);
    SignatureNeverFindsOwnNumber(rows, w.messages);
    MatchesAreResolvable(w, st, SignaturePhone);
    QueueOnlyRulesMergeNothing(st, o, matches);
    NewCandidatesAreMatches(st, o, matches);
    OwnDigitsAreKnown(w, st.store, own);
    var (s, t) := (st.store, RuleRun(w, o, st, SignaturePhone).store);
    forall c | |s.candidates| <= c < |t.candidates|
      ensures t.candidates[c].b in s.identities
      ensures PhoneDigits(s.identities[t.candidates[c].b].handle) != PhoneDigits(s.identities[own].handle)
    {
      assert IsEndsOf(matches, t.candidates[c]);
      var m :| m in matches && m.a.Existing? && m.b.Existing? && m.a.i == t.candidates[c].a
        && m.b.i == t.candidates[c].b;
      assert NeverOwn(rows, m);
      var r :| r in rows && r.i == m.b.i && r.channel == "whatsapp";
      assert !IsNumberOf(r, PhoneDigits(s.identities[own].handle).value);
    }
  }

  lemma OwnDigitsAreKnown(w: World, s: Store, own: IdentityId)
    requires own in w.order && own in s.identities
    requires s.identities[own].channel == "whatsapp" && s.identities[own].isSelf
    requires PhoneDigits(s.identities[own].handle).Some?
    ensures PhoneDigits(s.identities[own].handle).value in SelfDigits(RowsOf(s, w.order))
  {
    var k :| 0 <= k < |w.order| && w.order[k] == own;
    assert RowsOf(s, w.order)[k] == RowOf(s, own);
  }
}
