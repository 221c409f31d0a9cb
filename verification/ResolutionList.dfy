/**
  The whole list that a resolution run works through: the five rules and the fact extractor, over one
  identity table. What each entry does when its turn comes, and why a second run does nothing.
 */
module ResolutionList {
  import opened Wrappers
  import opened Connections
  import opened RuleMatching
  import opened RuleRuns
  import opened NewMatches
  import Facts = StructuredFacts

  /** The store with the tables only the extractor writes. */
  datatype Database = Database(state: State, orgs: map<string, nat>, facts: seq<Facts.Fact>)

  datatype Entry = RuleEntry(rule: Rule) | FactsEntry

  /** The order of adapters/resolution/run.py. */
  const ENTRIES := [RuleEntry(ExactEmail), RuleEntry(ContactBridge), RuleEntry(SignaturePhone),
                    RuleEntry(OutlookDedupe), RuleEntry(LinkedinCorrelation), FactsEntry]

  // ---------------------------------------------------------------- the extractor on the identity table

  /** The LinkedIn rows of the identity table, by handle. */
  function ProfilesOf(st: State): map<string, Facts.Profile> {
    map handle | handle in st.profiles ::
      Facts.Profile(st.profiles[handle],
                    if st.profiles[handle] in st.store.identities
                    then st.store.identities[st.profiles[handle]].displayName
                    else None)
  }

  function TablesOf(d: Database): Facts.Tables {
    Facts.Tables(ProfilesOf(d.state), d.orgs, d.facts)
  }

  /** The extractor inserts LinkedIn identities with the ids that the rules would get, too. */
  ghost predicate SameSupply(o: Oracle, n: Facts.NewRows) {
    n.profileId == o.newIdentity
  }

  /** One connection: its identity row as an upsert leaves it, its organization and its facts. */
  function Extracted(d: Database, o: Oracle, n: Facts.NewRows, c: Connection): Database {
    var t := Facts.ExtractOne(TablesOf(d), n, c);
    Database(Upserted(d.state, o, Linkedin(c.id, DisplayName(c))), t.orgs, t.facts)
  }

  function ExtractedAll(d: Database, o: Oracle, n: Facts.NewRows, connections: seq<Connection>): Database
    decreases |connections|
  {
    if connections == [] then d
    else Extracted(ExtractedAll(d, o, n, connections[..|connections| - 1]), o, n, connections[|connections| - 1])
  }

  lemma UpsertIsUpsert(st: State, o: Oracle, n: Facts.NewRows, c: Connection, orgs: map<string, nat>,
                       facts: seq<Facts.Fact>)
    requires Indexed(st) && Supplies(o, st) && SameSupply(o, n)
    ensures ProfilesOf(Upserted(st, o, Linkedin(c.id, DisplayName(c)))) ==
      Facts.WithProfile(Facts.Tables(ProfilesOf(st), orgs, facts), n, c).profiles
  {
    UpsertIsUpdate(st, o, c.id, DisplayName(c));
    hide Upserted, Indexed, Supplies, DisplayName, ProfilesOf;
  }

  /** As a table of handles, the upsert updates one entry. */
  lemma UpsertIsUpdate(st: State, o: Oracle, handle: string, name: Option<string>)
    requires Indexed(st) && Supplies(o, st)
    ensures var p := ProfilesOf(st);
      ProfilesOf(Upserted(st, o, Linkedin(handle, name))) ==
        if handle !in p then p[handle := Facts.Profile(o.newIdentity(handle), name)]
        else if p[handle].displayName.Some? then p
        else p[handle := Facts.Profile(p[handle].id, name)]
  {
    UpsertTouchesOneRow(st, o, handle, name);
    hide Upserted, Indexed, Supplies;
  }

  /** The upsert's effect on the index and the names behind it. */
  lemma UpsertTouchesOneRow(st: State, o: Oracle, handle: string, name: Option<string>)
    requires Indexed(st) && Supplies(o, st)
    ensures var (u, known) := (Upserted(st, o, Linkedin(handle, name)), handle in st.profiles);
      && u.profiles.Keys == st.profiles.Keys + {handle}
      && (forall h :: h in u.profiles ==> u.profiles[h] in u.store.identities)
      && (forall h :: h in st.profiles ==> st.profiles[h] in st.store.identities && u.profiles[h] == st.profiles[h])
      && (!known ==> u.profiles[handle] == o.newIdentity(handle))
      && (forall h :: h in st.profiles && h != handle ==>
           u.store.identities[u.profiles[h]].displayName == st.store.identities[st.profiles[h]].displayName)
      && u.store.identities[u.profiles[handle]].displayName ==
           (if known && st.store.identities[st.profiles[handle]].displayName.Some?
            then st.store.identities[st.profiles[handle]].displayName else name)
  {
  }

  lemma ProfilesAreSettledFirst(t: Facts.Tables, n: Facts.NewRows, c: Connection)
    ensures Facts.ExtractOne(t, n, c).profiles == Facts.WithProfile(t, n, c).profiles
  {
    hide Facts.WithProfile;
    Facts.ProfileGrows(t, n, c);
    Facts.CompanyGrows(Facts.WithProfile(t, n, c), n, c);
    Facts.TitleGrows(Facts.WithCompany(Facts.WithProfile(t, n, c), n, c), c);
  }

  /** The extractor does to the store's LinkedIn rows, organizations and facts what it does to tables of its own. */
  lemma ExtractedIsExtractOne(d: Database, o: Oracle, n: Facts.NewRows, c: Connection)
    requires Indexed(d.state) && Supplies(o, d.state) && SameSupply(o, n)
    ensures TablesOf(Extracted(d, o, n, c)) == Facts.ExtractOne(TablesOf(d), n, c)
  {
    hide Facts.ExtractOne, Indexed, Supplies, Upserted, ProfilesOf;
    UpsertIsUpsert(d.state, o, n, c, d.orgs, d.facts);
    ProfilesAreSettledFirst(TablesOf(d), n, c);
  }

  /** Nothing that the rules or the extractor rely on goes away. */
  ghost predicate DatabaseGrows(d: Database, u: Database) {
    Grows(d.state, u.state) && Facts.Grows(TablesOf(d), TablesOf(u))
  }

  lemma DatabaseGrowsTransitively(d: Database, u: Database, v: Database)
    requires DatabaseGrows(d, u) && DatabaseGrows(u, v)
    ensures DatabaseGrows(d, v)
  {
    hide Grows, Facts.Grows, TablesOf;
    GrowsTransitively(d.state, u.state, v.state);
    Facts.GrowsTransitively(TablesOf(d), TablesOf(u), TablesOf(v));
  }

  lemma DatabaseGrowsFromItself(d: Database)
    ensures DatabaseGrows(d, d)
  {
    GrowsFromItself(d.state);
  }

  /** What the store keeps, its LinkedIn rows keep. */
  lemma ProfilesGrow(d: Database, u: Database)
    requires Grows(d.state, u.state) && Indexed(d.state) && Indexed(u.state) && u.orgs == d.orgs && u.facts == d.facts
    ensures DatabaseGrows(d, u)
  {
    var (t, v) := (TablesOf(d), TablesOf(u));
    forall handle | handle in t.profiles
      ensures handle in v.profiles && v.profiles[handle].id == t.profiles[handle].id
      ensures t.profiles[handle].displayName.Some? ==> v.profiles[handle] == t.profiles[handle]
    {
      assert RowGrows(d.state.store.identities[d.state.profiles[handle]],
        u.state.store.identities[d.state.profiles[handle]]);
    }
  }

  lemma ExtractedGrows(d: Database, o: Oracle, n: Facts.NewRows, c: Connection)
    requires Indexed(d.state) && Supplies(o, d.state) && SameSupply(o, n)
    ensures var u := Extracted(d, o, n, c);
      && DatabaseGrows(d, u) && Indexed(u.state) && Supplies(o, u.state)
      && u.state.store.log == d.state.store.log && u.state.store.candidates == d.state.store.candidates
  {
    ExtractedIsExtractOne(d, o, n, c);
    hide Facts.ExtractOne, Indexed, Supplies, Upserted, ProfilesOf, TablesOf, Grows;
    Facts.ExtractOneSettles(TablesOf(d), n, c);
    UpsertGrows(d.state, o, Linkedin(c.id, DisplayName(c)));
    UpsertTouchesOnlyProfiles(d.state, o, Linkedin(c.id, DisplayName(c)));
  }

  /**
    The extractor over all connections: it only adds in the sense the rules need, touches no candidate
    and no log row, and leaves nothing of any connection unsaid.
   */
  lemma {:induction false} ExtractionSettles(d: Database, o: Oracle, n: Facts.NewRows, connections: seq<Connection>)
    requires Indexed(d.state) && Supplies(o, d.state) && SameSupply(o, n)
    ensures var u := ExtractedAll(d, o, n, connections);
      && DatabaseGrows(d, u) && Indexed(u.state) && Supplies(o, u.state)
      && u.state.store.log == d.state.store.log && u.state.store.candidates == d.state.store.candidates
      && TablesOf(u) == Facts.ExtractAll(TablesOf(d), n, connections)
    decreases |connections|
  {
    hide DatabaseGrows, Indexed, Supplies, Extracted, Facts.ExtractOne, TablesOf;
    if connections == [] {
      DatabaseGrowsFromItself(d);
    } else {
      var (rest, last) := (connections[..|connections| - 1], connections[|connections| - 1]);
      ExtractionSettles(d, o, n, rest);
      var mid := ExtractedAll(d, o, n, rest);
      ExtractedGrows(mid, o, n, last);
      ExtractedIsExtractOne(mid, o, n, last);
      DatabaseGrowsTransitively(d, mid, Extracted(mid, o, n, last));
    }
  }

  // ---------------------------------------------------------------- entries of the list

  function EntryRun(w: World, o: Oracle, n: Facts.NewRows, d: Database, e: Entry): Database {
    match e
    case RuleEntry(rule) => d.(state := RuleRun(w, o, d.state, rule))
    case FactsEntry => ExtractedAll(d, o, n, w.connections)
  }

  /** The list in order; an entry that raises is rolled back, and the list goes on. */
  function RunEntries(w: World, o: Oracle, n: Facts.NewRows, d: Database, entries: seq<Entry>,
                      raising: set<Entry>): Database
    decreases |entries|
  {
    if entries == [] then d
    else
      var (before, last) := (RunEntries(w, o, n, d, entries[..|entries| - 1], raising), entries[|entries| - 1]);
      if last in raising then before else EntryRun(w, o, n, before, last)
  }

  lemma EveryEntryIsListed(e: Entry)
    ensures e in ENTRIES
  {
    var list := ENTRIES;
    assert list[5] == FactsEntry;
    if e.RuleEntry? {
      match e.rule
      case ExactEmail => assert e == list[0];
      case ContactBridge => assert e == list[1];
      case SignaturePhone => assert e == list[2];
      case OutlookDedupe => assert e == list[3];
      case LinkedinCorrelation => assert e == list[4];
    }
  }

  /** One turn of the list. */
  function Turn(w: World, o: Oracle, n: Facts.NewRows, d: Database, e: Entry, raising: set<Entry>): Database {
    if e in raising then d else EntryRun(w, o, n, d, e)
  }

  /** The certain rules come first, then the queueing ones, then the extractor; what raises is passed over. */
  lemma ListInOrder(w: World, o: Oracle, n: Facts.NewRows, d: Database, raising: set<Entry>)
    ensures
      var exact := if RuleEntry(ExactEmail) in raising then d else d.(state := RuleRun(w, o, d.state, ExactEmail));
      var bridge := Turn(w, o, n, exact, RuleEntry(ContactBridge), raising);
      var phone := Turn(w, o, n, bridge, RuleEntry(SignaturePhone), raising);
      var dedupe := Turn(w, o, n, phone, RuleEntry(OutlookDedupe), raising);
      var names := Turn(w, o, n, dedupe, RuleEntry(LinkedinCorrelation), raising);
      RunEntries(w, o, n, d, ENTRIES, raising) ==
      if FactsEntry in raising then names else ExtractedAll(names, o, n, w.connections)
  {
    var list := ENTRIES;
    assert list[..5] + [list[5]] == list && list[..4] + [list[4]] == list[..5] && list[..3] + [list[3]] == list[..4];
    assert list[..2] + [list[2]] == list[..3] && list[..1] + [list[1]] == list[..2] && list[..1] == [] + [list[0]];
    hide RuleRun, ExtractedAll, RunEntries;
    NoTurn(w, o, n, d, raising);
    OneMoreTurn(w, o, n, d, [], list[0], raising);
    OneMoreTurn(w, o, n, d, list[..1], list[1], raising);
    OneMoreTurn(w, o, n, d, list[..2], list[2], raising);
    OneMoreTurn(w, o, n, d, list[..3], list[3], raising);
    OneMoreTurn(w, o, n, d, list[..4], list[4], raising);
    OneMoreTurn(w, o, n, d, list[..5], list[5], raising);
  }

  lemma NoTurn(w: World, o: Oracle, n: Facts.NewRows, d: Database, raising: set<Entry>)
    ensures RunEntries(w, o, n, d, [], raising) == d
  {
  }

  lemma OneMoreTurn(w: World, o: Oracle, n: Facts.NewRows, d: Database, entries: seq<Entry>, e: Entry,
                    raising: set<Entry>)
    ensures RunEntries(w, o, n, d, entries + [e], raising) ==
      Turn(w, o, n, RunEntries(w, o, n, d, entries, raising), e, raising)
  {
    assert (entries + [e])[..|entries|] == entries;
  }

  /** Nothing an entry finds has anything left to do. */
  ghost predicate EntryIsDone(w: World, n: Facts.NewRows, d: Database, e: Entry) {
    match e
    case RuleEntry(rule) => RuleIsDone(w, d.state, rule)
    case FactsEntry => forall c :: c in w.connections ==> Facts.Settled(TablesOf(d), n, c)
  }

  lemma EntrySettles(w: World, o: Oracle, n: Facts.NewRows, d: Database, e: Entry)
    requires Runnable(w, o, d.state) && SameSupply(o, n)
    ensures var u := EntryRun(w, o, n, d, e);
      DatabaseGrows(d, u) && Runnable(w, o, u.state) && EntryIsDone(w, n, u, e)
  {
    match e
    case RuleEntry(rule) =>
      RuleRunSettles(w, o, d.state, rule);
      RuleDoesSettle(w, o, d.state, rule);
      hide RuleRun, Grows, RuleIsDone, Scans;
      ProfilesGrow(d, EntryRun(w, o, n, d, e));
    case FactsEntry =>
      ExtractionSettles(d, o, n, w.connections);
      Facts.ExtractAllSettles(TablesOf(d), n, w.connections);
      var u := ExtractedAll(d, o, n, w.connections);
      RowsAreStable(w, d.state, u.state);
      hide ExtractedAll, Facts.ExtractAll, Facts.Settled, TablesOf, Facts.Grows;
  }

  lemma RuleDoesSettle(w: World, o: Oracle, st: State, rule: Rule)
    requires Runnable(w, o, st)
    ensures RuleIsDone(w, RuleRun(w, o, st, rule), rule)
  {
    RuleRunSettles(w, o, st, rule);
    hide RuleRun, Grows, RuleIsDone, Matches;
    var t := RuleRun(w, o, st, rule);
    GrowsFromItself(t);
    DoneIsStable(w, st, t, t, rule);
  }

  /** Rules and extraction that are done stay done, whatever is only added. */
  lemma EntryStaysDone(w: World, n: Facts.NewRows, d: Database, u: Database, e: Entry)
    requires Scans(w, d.state.store) && w.lastAutomated.Keys <= d.state.store.identities.Keys
    requires DatabaseGrows(d, u) && EntryIsDone(w, n, d, e)
    ensures EntryIsDone(w, n, u, e)
  {
    hide RuleIsDone, Grows, Facts.Grows, Facts.Settled, Scans, TablesOf;
    match e
    case RuleEntry(rule) => DoneStaysDone(w, d.state, u.state, rule);
    case FactsEntry =>
      forall c | c in w.connections ensures Facts.Settled(TablesOf(u), n, c) {
        Facts.SettledIsStable(TablesOf(d), TablesOf(u), n, c);
      }
  }

  /** After the list, every entry that did not raise has nothing left to do. */
  lemma {:induction false} RunEntriesSettle(w: World, o: Oracle, n: Facts.NewRows, d: Database, entries: seq<Entry>,
                                            raising: set<Entry>)
    requires Runnable(w, o, d.state) && SameSupply(o, n)
    ensures var u := RunEntries(w, o, n, d, entries, raising);
      && DatabaseGrows(d, u) && Runnable(w, o, u.state)
      && forall e :: e in entries && e !in raising ==> EntryIsDone(w, n, u, e)
    decreases |entries|
  {
    hide DatabaseGrows, EntryIsDone, EntryRun, Indexed, Supplies, Scans, SameSupply;
    if entries == [] {
      DatabaseGrowsFromItself(d);
    } else {
      var (rest, last) := (entries[..|entries| - 1], entries[|entries| - 1]);
      assert entries == rest + [last];
      RunEntriesSettle(w, o, n, d, rest, raising);
      var mid := RunEntries(w, o, n, d, rest, raising);
      if last !in raising {
        var u := EntryRun(w, o, n, mid, last);
        EntrySettles(w, o, n, mid, last);
        DatabaseGrowsTransitively(d, mid, u);
        forall e | e in rest && e !in raising ensures EntryIsDone(w, n, u, e) {
          EntryStaysDone(w, n, mid, u, e);
        }
      }
    }
  }

  // ---------------------------------------------------------------- running the list again

  lemma SettledProfileIsNamed(d: Database, n: Facts.NewRows, c: Connection)
    requires Indexed(d.state) && Facts.Settled(TablesOf(d), n, c)
    ensures RuleRuns.Named(d.state, Linkedin(c.id, DisplayName(c)))
  {
  }

  lemma SettledConnectionIsFixed(d: Database, o: Oracle, n: Facts.NewRows, c: Connection)
    requires Indexed(d.state) && Facts.Settled(TablesOf(d), n, c)
    ensures Extracted(d, o, n, c) == d
  {
    SettledProfileIsNamed(d, n, c);
    Facts.SettledIsFixed(TablesOf(d), n, c);
    hide Facts.ExtractOne, Indexed, Facts.Settled, RuleRuns.Named, Upserted;
    UpsertOfNamed(d.state, o, Linkedin(c.id, DisplayName(c)));
  }

  lemma {:induction false} SettledExtractionIsIdle(d: Database, o: Oracle, n: Facts.NewRows,
                                                   connections: seq<Connection>)
    requires Indexed(d.state) && forall c :: c in connections ==> Facts.Settled(TablesOf(d), n, c)
    ensures ExtractedAll(d, o, n, connections) == d
    decreases |connections|
  {
    hide Facts.Settled, Extracted, Indexed;
    if connections != [] {
      SettledExtractionIsIdle(d, o, n, connections[..|connections| - 1]);
      SettledConnectionIsFixed(d, o, n, connections[|connections| - 1]);
    }
  }

  lemma DoneEntryIsIdle(w: World, o: Oracle, n: Facts.NewRows, d: Database, e: Entry)
    requires Indexed(d.state) && EntryIsDone(w, n, d, e)
    ensures EntryRun(w, o, n, d, e) == d
  {
    hide RuleIsDone, Indexed, Facts.Settled, RuleRun, ExtractedAll;
    match e
    case RuleEntry(rule) => DoneRuleIsIdle(w, o, d.state, rule);
    case FactsEntry => SettledExtractionIsIdle(d, o, n, w.connections);
  }

  lemma {:induction false} DoneListIsIdle(w: World, o: Oracle, n: Facts.NewRows, d: Database, entries: seq<Entry>,
                                          raising: set<Entry>)
    requires Indexed(d.state) && forall e :: e in entries && e !in raising ==> EntryIsDone(w, n, d, e)
    ensures RunEntries(w, o, n, d, entries, raising) == d
    decreases |entries|
  {
    hide EntryIsDone, EntryRun, Indexed;
    if entries != [] {
      var (rest, last) := (entries[..|entries| - 1], entries[|entries| - 1]);
      assert entries == rest + [last];
      DoneListIsIdle(w, o, n, d, rest, raising);
      if last !in raising {
        DoneEntryIsIdle(w, o, n, d, last);
      }
    }
  }

  /** Only how names are normalised matters to what an extraction leaves to do. */
  lemma DoneUnderOtherIds(w: World, n: Facts.NewRows, m: Facts.NewRows, d: Database, e: Entry)
    requires EntryIsDone(w, n, d, e) && m.normalise == n.normalise
    ensures EntryIsDone(w, m, d, e)
  {
    hide RuleIsDone, TablesOf;
    if e == FactsEntry {
      forall c | c in w.connections ensures Facts.Settled(TablesOf(d), m, c) {
        assert Facts.Settled(TablesOf(d), n, c);
      }
    }
  }

  /** What is done stays done for whoever reads nothing new. */
  lemma DoneForNothingNew(w: World, v: World, n: Facts.NewRows, d: Database, e: Entry)
    requires NothingNew(w, v) && EntryIsDone(w, n, d, e)
    ensures EntryIsDone(v, n, d, e)
  {
    match e
    case RuleEntry(rule) =>
      hide RuleRuns.Settled, Matches, NothingNew;
      forall x | x in Matches(v, d.state.store, rule) ensures RuleRuns.Settled(d.state, x) {
        NothingNewIsFound(w, v, d.state.store, rule, x);
      }
    case FactsEntry =>
  }

  /**
    Once an entry of the list has run without raising, running it again over what it read, or over part of
    that, changes nothing at all: no identity, no name, no candidate, no merge, no organization and no
    fact. If no entry raised, the whole list run again changes nothing, whichever entries raise this time.
    That holds for any ids and names the second run would be given, and still holds after whatever has
    only added to the database meanwhile (merges, reviews, filled names: see DatabaseGrows). What a run
    does that reads more than the first one did is in ResolutionNews.dfy.
   */
  lemma SecondRunIsIdle(w: World, v: World, first: Oracle, n: Facts.NewRows, second: Oracle, m: Facts.NewRows,
                        d: Database, raised: set<Entry>, later: Database, raising: set<Entry>)
    requires Runnable(w, first, d.state) && SameSupply(first, n) && m.normalise == n.normalise && NothingNew(w, v)
    requires DatabaseGrows(RunEntries(w, first, n, d, ENTRIES, raised), later) && Indexed(later.state)
    ensures forall e :: e !in raised ==> EntryRun(v, second, m, later, e) == later
    ensures raised == {} ==> RunEntries(v, second, m, later, ENTRIES, raising) == later
  {
    hide RunEntries, EntryRun, EntryIsDone, DatabaseGrows, Indexed, Supplies, Scans, SameSupply, NothingNew;
    var u := RunEntries(w, first, n, d, ENTRIES, raised);
    RunEntriesSettle(w, first, n, d, ENTRIES, raised);
    forall e | e !in raised ensures EntryIsDone(v, m, later, e) {
      EveryEntryIsListed(e);
      EntryStaysDone(w, n, u, later, e);
      DoneUnderOtherIds(w, n, m, later, e);
      DoneForNothingNew(w, v, m, later, e);
    }
    forall e | e !in raised ensures EntryRun(v, second, m, later, e) == later {
      DoneEntryIsIdle(v, second, m, later, e);
    }
    if raised == {} {
      DoneListIsIdle(v, second, m, later, ENTRIES, raising);
    }
  }
}
