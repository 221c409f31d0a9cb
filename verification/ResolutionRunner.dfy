/**
  A resolution run as the code makes it: the rules of RuleRunner.dfy and the fact extractor with its
  three in-memory caches, one after the other, each in a transaction that a raised error rolls back.
 */
module ResolutionRunner {
  import opened Wrappers
  import opened StoreModel
  import opened Connections
  import opened RuleMatching
  import opened RuleRuns
  import PersonForest
  import opened RuleRunner
  import opened ResolutionList
  import Facts = StructuredFacts

  // ---------------------------------------------------------------- names chosen later

  lemma ExtractionNeedsNoNames(d: Database, x: Oracle, y: Oracle, n: Facts.NewRows, connections: seq<Connection>)
    requires x.newIdentity == y.newIdentity
    ensures ExtractedAll(d, y, n, connections) == ExtractedAll(d, x, n, connections)
    decreases |connections|
  {
    hide Facts.ExtractOne, Upserted;
    if connections != [] {
      var (rest, last) := (connections[..|connections| - 1], connections[|connections| - 1]);
      ExtractionNeedsNoNames(d, x, y, n, rest);
      SameUpsert(ExtractedAll(d, x, n, rest).state, x, y, Linkedin(last.id, DisplayName(last)));
    }
  }

  /** Running an entry appends to the log, and its result depends on the names chosen for no later row. */
  lemma LaterNamesDoNotMatterToEntry(w: World, n: Facts.NewRows, d: Database, e: Entry, x: Oracle, y: Oracle)
    requires Indexed(d.state) && Supplies(x, d.state) && SameSupply(x, n)
    requires AgreeBefore(x, y, |EntryRun(w, x, n, d, e).state.store.log|)
    ensures EntryRun(w, y, n, d, e) == EntryRun(w, x, n, d, e)
    ensures |d.state.store.log| <= |EntryRun(w, x, n, d, e).state.store.log|
  {
    hide Matches, ProcessedAll, ExtractedAll, Indexed, Supplies;
    match e
    case RuleEntry(rule) => LaterNamesDoNotMatter(d.state, x, y, Matches(w, d.state.store, rule));
    case FactsEntry =>
      ExtractionSettles(d, x, n, w.connections);
      ExtractionNeedsNoNames(d, x, y, n, w.connections);
  }

  lemma {:induction false} LaterNamesDoNotMatterToList(w: World, n: Facts.NewRows, d: Database, entries: seq<Entry>,
                                                       raising: set<Entry>, x: Oracle, y: Oracle)
    requires Runnable(w, x, d.state) && SameSupply(x, n)
    requires AgreeBefore(x, y, |RunEntries(w, x, n, d, entries, raising).state.store.log|)
    ensures RunEntries(w, y, n, d, entries, raising) == RunEntries(w, x, n, d, entries, raising)
    decreases |entries|
  {
    hide EntryRun, Scans, Indexed, Supplies;
    if entries != [] {
      var (rest, last) := (entries[..|entries| - 1], entries[|entries| - 1]);
      var mid := RunEntries(w, x, n, d, rest, raising);
      RunEntriesSettle(w, x, n, d, rest, raising);
      if last !in raising {
        LaterNamesDoNotMatterToEntry(w, n, mid, last, x, x);
        LaterNamesDoNotMatterToList(w, n, d, rest, raising, x, y);
        LaterNamesDoNotMatterToEntry(w, n, mid, last, x, y);
      } else {
        LaterNamesDoNotMatterToList(w, n, d, rest, raising, x, y);
      }
    }
  }

  /** An entry run after others extends what they did, under the names chosen by then. */
  lemma OneMoreEntry(w: World, n: Facts.NewRows, d: Database, entries: seq<Entry>, raising: set<Entry>, e: Entry,
                     x: Oracle, y: Oracle)
    requires Runnable(w, x, d.state) && SameSupply(x, n)
    requires AgreeBefore(x, y, |RunEntries(w, x, n, d, entries, raising).state.store.log|)
    ensures var mid := RunEntries(w, x, n, d, entries, raising);
      RunEntries(w, y, n, d, entries + [e], raising) == if e in raising then mid else EntryRun(w, y, n, mid, e)
  {
    hide EntryRun, Scans, Indexed, Supplies;
    LaterNamesDoNotMatterToList(w, n, d, entries, raising, x, y);
    assert (entries + [e])[..|entries|] == entries;
  }

  lemma NextEntry(w: World, n: Facts.NewRows, d: Database, list: seq<Entry>, k: nat, raising: set<Entry>, x: Oracle,
                  y: Oracle, mid: Database, u: Database)
    requires k < |list| && Runnable(w, x, d.state) && SameSupply(x, n)
    requires mid == RunEntries(w, x, n, d, list[..k], raising)
    requires AgreeBefore(x, y, |mid.state.store.log|)
    requires u == if list[k] in raising then mid else EntryRun(w, y, n, mid, list[k])
    ensures Runnable(w, y, d.state) && u == RunEntries(w, y, n, d, list[..k + 1], raising)
  {
    hide EntryRun, RunEntries, Runnable, SameSupply;
    StillRunnable(w, x, y, d.state, n);
    hide AgreeBefore;
    OneMoreEntry(w, n, d, list[..k], raising, list[k], x, y);
    assert list[..k + 1] == list[..k] + [list[k]];
  }

  class ResolutionRun {
    const runner: RuleRunner
    const rows: Facts.NewRows
    var orgs: map<string, nat>
    var facts: seq<Facts.Fact>

    constructor (runner: RuleRunner, rows: Facts.NewRows, orgs: map<string, nat>, facts: seq<Facts.Fact>)
      requires runner.Usable() && rows.profileId == runner.newIdentity
      ensures Usable() && this.runner == runner && this.rows == rows
      ensures Contents() == Database(runner.Current(), orgs, facts)
    {
      this.runner, this.rows, this.orgs, this.facts := runner, rows, orgs, facts;
    }

    ghost function Contents(): Database
      reads this, runner`profiles, runner.db
    {
      Database(runner.Current(), orgs, facts)
    }

    ghost predicate Usable()
      reads this, runner`profiles, runner`names, runner.db
    {
      runner.Usable() && rows.profileId == runner.newIdentity
    }

    // -------------------------------------------------------------- the extractor

    method GetOrCreateOrganization(canonical: string) returns (id: nat)
      modifies this`orgs
      ensures orgs == (if canonical in old(orgs) then old(orgs) else old(orgs)[canonical := rows.orgId(canonical)])
      ensures canonical in orgs && id == orgs[canonical]
    {
      if canonical !in orgs {
        orgs := orgs[canonical := rows.orgId(canonical)];
      }
      id := orgs[canonical];
    }

    /** The cached identity: the upsert is skipped only when it could not change anything. */
    method CachedIdentity(c: Connection, cache: map<string, Facts.Profile>)
      returns (id: nat, after: map<string, Facts.Profile>)
      requires Usable() && cache == ProfilesOf(runner.Current())
      modifies runner`profiles, runner.db`identities
      ensures Usable() && runner.Current() ==
        Upserted(old(runner.Current()), runner.Chosen(), Linkedin(c.id, DisplayName(c)))
      ensures after == ProfilesOf(runner.Current()) && c.id in after && id == after[c.id].id
    {
      ghost var st := runner.Current();
      UpsertIsUpsert(st, runner.Chosen(), rows, c, map[], []);
      if c.id in cache && cache[c.id].displayName.Some? {
        id, after := cache[c.id].id, cache;
        NamedProfile(st, c);
        UpsertOfNamed(st, runner.Chosen(), Linkedin(c.id, DisplayName(c)));
      } else {
        var displayName := DisplayName(c);
        id := runner.Upsert(Linkedin(c.id, displayName));
        var cachedName := if c.id in cache then cache[c.id].displayName else None;
        after := cache[c.id := Facts.Profile(id, if displayName.Some? then displayName else cachedName)];
        CachedProfile(st, runner.Chosen(), rows, c, id, after);
      }
    }

    method CachedOrganization(name: string, cache: map<string, nat>) returns (id: nat, after: map<string, nat>)
      requires forall o :: o in cache ==> o in orgs && orgs[o] == cache[o]
      modifies this`orgs
      ensures orgs == (var key := rows.normalise(name);
                       if key in old(orgs) then old(orgs) else old(orgs)[key := rows.orgId(key)])
      ensures forall o :: o in after ==> o in orgs && orgs[o] == after[o]
      ensures rows.normalise(name) in orgs && id == orgs[rows.normalise(name)]
    {
      var canonical := rows.normalise(name);
      after := cache;
      if canonical !in after {
        var created := GetOrCreateOrganization(canonical);
        after := after[canonical := created];
      }
      id := after[canonical];
    }

    ghost function Extracted(): set<Facts.Fact>
      reads this`facts
    {
      set f | f in facts && f.factType in Facts.EXTRACTED
    }

    /** Insert a fact unless the cache already has it. */
    method RecordFact(key: Facts.Fact, cache: set<Facts.Fact>) returns (after: set<Facts.Fact>, added: nat)
      requires cache == Extracted() && key.factType in Facts.EXTRACTED
      modifies this`facts
      ensures facts == if key in old(facts) then old(facts) else old(facts) + [key]
      ensures after == Extracted() && added == |facts| - |old(facts)|
    {
      after, added := cache, 0;
      if key !in cache {
        facts := facts + [key];
        after := after + {key};
        added := 1;
      }
    }

    /** The facts of one connection whose identity is known. */
    method RecordFacts(c: Connection, id: nat, orgCache: map<string, nat>, existing: set<Facts.Fact>)
      returns (orgsAfter: map<string, nat>, existingAfter: set<Facts.Fact>, added: nat)
      requires c.id in runner.profiles && id == runner.profiles[c.id]
      requires (forall o :: o in orgCache ==> o in orgs && orgs[o] == orgCache[o]) && existing == Extracted()
      modifies this`orgs, this`facts
      ensures TablesOf(Contents()) == Facts.WithTitle(Facts.WithCompany(old(TablesOf(Contents())), rows, c), c)
      ensures (forall o :: o in orgsAfter ==> o in orgs && orgs[o] == orgsAfter[o]) && existingAfter == Extracted()
      ensures added == |facts| - |old(facts)|
    {
      orgsAfter, existingAfter, added := orgCache, existing, 0;
      ghost var t := TablesOf(Contents());
      assert c.id in t.profiles && t.profiles[c.id].id == id;
      if Present(c.company) {
        var orgId, n;
        orgId, orgsAfter := CachedOrganization(c.company.value, orgsAfter);
        existingAfter, n := RecordFact(Facts.Fact(id, "works_at", Some(orgId), None), existingAfter);
        added := added + n;
      }
      assert TablesOf(Contents()) == Facts.WithCompany(t, rows, c);
      if Present(c.position) {
        var n;
        existingAfter, n := RecordFact(Facts.Fact(id, "has_title", None, c.position), existingAfter);
        added := added + n;
      }
    }

    /** One turn of the extractor's loop. */
    method ExtractOne(c: Connection, cache: map<string, Facts.Profile>, orgCache: map<string, nat>,
                      existing: set<Facts.Fact>)
      returns (after: map<string, Facts.Profile>, orgsAfter: map<string, nat>, existingAfter: set<Facts.Fact>,
               added: nat)
      requires Usable() && cache == ProfilesOf(runner.Current())
      requires (forall o :: o in orgCache ==> o in orgs && orgs[o] == orgCache[o]) && existing == Extracted()
      modifies this`orgs, this`facts, runner`profiles, runner.db`identities
      ensures Usable() && Contents() == ResolutionList.Extracted(old(Contents()), runner.Chosen(), rows, c)
      ensures after == ProfilesOf(runner.Current())
      ensures (forall o :: o in orgsAfter ==> o in orgs && orgs[o] == orgsAfter[o]) && existingAfter == Extracted()
      ensures added == |facts| - |old(facts)|
    {
      hide Upserted, Indexed, Supplies, Facts.WithCompany, Facts.WithTitle;
      ghost var d := Contents();
      UpsertIsUpsert(d.state, runner.Chosen(), rows, c, d.orgs, d.facts);
      var id;
      id, after := CachedIdentity(c, cache);
      assert TablesOf(Contents()) == Facts.WithProfile(TablesOf(d), rows, c);
      orgsAfter, existingAfter, added := RecordFacts(c, id, orgCache, existing);
    }

    /**
      extract_structured_facts. Through the loop the identity cache equals the LinkedIn rows of the
      identity table, the fact cache holds exactly the extracted facts, and the organization cache never
      disagrees with its table; so everything ends as without caches, and the count is the number of
      facts inserted.
     */
    method ExtractStructuredFacts(connections: seq<Connection>) returns (count: nat)
      requires Usable()
      modifies this`orgs, this`facts, runner`profiles, runner.db`identities
      ensures Usable() && Contents() == ExtractedAll(old(Contents()), runner.Chosen(), rows, connections)
      ensures TablesOf(Contents()) == Facts.ExtractAll(old(TablesOf(Contents())), rows, connections)
      ensures count == |facts| - |old(facts)|
    {
      hide ResolutionList.Extracted, TablesOf, ProfilesOf, Facts.ExtractOne;
      ghost var d := Contents();
      ExtractionSettles(d, runner.Chosen(), rows, connections);
      hide Usable;
      var identityByHandle := ProfilesOf(runner.Current());
      var existingFacts := set f | f in facts && f.factType in Facts.EXTRACTED;
      var orgCache: map<string, nat> := map[];
      count := 0;
      for k := 0 to |connections|
        invariant Usable() && Contents() == ExtractedAll(d, runner.Chosen(), rows, connections[..k])
        invariant identityByHandle == ProfilesOf(runner.Current()) && existingFacts == Extracted()
        invariant forall o :: o in orgCache ==> o in orgs && orgs[o] == orgCache[o]
        invariant |facts| == |old(facts)| + count
      {
        assert connections[..k + 1][..k] == connections[..k];
        var added;
        identityByHandle, orgCache, existingFacts, added :=
          ExtractOne(connections[k], identityByHandle, orgCache, existingFacts);
        count := count + added;
      }
      assert connections[..|connections|] == connections;
    }

    // -------------------------------------------------------------- the list

    method RunEntry(w: World, e: Entry) returns (written: nat)
      requires Usable() && Scans(w, runner.db.Tables())
      modifies this`orgs, this`facts, runner, runner.db
      ensures Usable() && Contents() == EntryRun(w, runner.Chosen(), rows, old(Contents()), e)
      ensures AgreeBefore(old(runner.Chosen()), runner.Chosen(), |old(runner.db.mergeLog)|)
      ensures |old(runner.db.mergeLog)| <= |runner.db.mergeLog|
      ensures |runner.db.candidates| == |old(runner.db.candidates)| + (if e.RuleEntry? then written else 0)
      ensures |facts| == |old(facts)| + (if e.RuleEntry? then 0 else written)
    {
      hide Indexed, Supplies, RuleRun, ExtractedAll, Grows, TablesOf, Scans;
      match e
      case RuleEntry(rule) => written := runner.RunRule(w, rule);
      case FactsEntry =>
        ExtractionSettles(Contents(), runner.Chosen(), rows, w.connections);
        written := ExtractStructuredFacts(w.connections);
    }

    /** One entry in its own transaction: if it raises, nothing of what it wrote stays. */
    method RunEntryOrRollBack(w: World, e: Entry, raises: bool) returns (written: nat)
      requires Usable() && Scans(w, runner.db.Tables())
      modifies this`orgs, this`facts, runner, runner.db
      ensures Usable()
      ensures Contents() == if raises then old(Contents()) else EntryRun(w, runner.Chosen(), rows, old(Contents()), e)
      ensures raises ==> runner.db.briefs == old(runner.db.briefs) && runner.db.attempts == old(runner.db.attempts)
      ensures raises ==> runner.db.hidden == old(runner.db.hidden) && written == 0
      ensures AgreeBefore(old(runner.Chosen()), runner.Chosen(), |old(runner.db.mergeLog)|)
      ensures |old(runner.db.mergeLog)| <= |runner.db.mergeLog|
      ensures |runner.db.candidates| == |old(runner.db.candidates)| + (if e.RuleEntry? then written else 0)
      ensures |facts| == |old(facts)| + (if e.RuleEntry? then 0 else written)
    {
      hide Indexed, Supplies, EntryRun, Scans, PersonForest.Sound, SuppliesPersons;
      var identities, persons, mergeLog, candidates :=
        runner.db.identities, runner.db.persons, runner.db.mergeLog, runner.db.candidates;
      var briefs, attempts, hidden := runner.db.briefs, runner.db.attempts, runner.db.hidden;
      var profiles, orgsBefore, factsBefore := runner.profiles, orgs, facts;
      ghost var names := runner.names;
      written := RunEntry(w, e);
      if raises {
        runner.db.identities, runner.db.persons, runner.db.mergeLog, runner.db.candidates :=
          identities, persons, mergeLog, candidates;
        runner.db.briefs, runner.db.attempts, runner.db.hidden := briefs, attempts, hidden;
        runner.profiles, orgs, facts := profiles, orgsBefore, factsBefore;
        runner.names := names;
        written := 0;
      }
    }

    /** The first k entries of the list have had their turn. */
    ghost predicate ThroughFirst(w: World, d: Database, list: seq<Entry>, raising: set<Entry>, k: nat)
      requires k <= |list|
      reads this, runner`profiles, runner`names, runner.db
    {
      && Usable() && Runnable(w, runner.Chosen(), d.state)
      && Contents() == RunEntries(w, runner.Chosen(), rows, d, list[..k], raising)
    }

    method Advance(w: World, list: seq<Entry>, k: nat, raises: bool, ghost d: Database, ghost raising: set<Entry>)
      returns (written: nat)
      requires k < |list| && ThroughFirst(w, d, list, raising, k) && (raises <==> list[k] in raising)
      modifies this`orgs, this`facts, runner, runner.db
      ensures ThroughFirst(w, d, list, raising, k + 1)
      ensures |runner.db.candidates| == |old(runner.db.candidates)| + (if list[k].RuleEntry? then written else 0)
      ensures |facts| == |old(facts)| + (if list[k].RuleEntry? then 0 else written)
    {
      ghost var o, mid := runner.Chosen(), Contents();
      assert SameSupply(o, rows);
      hide Usable, EntryRun, Scans, RunEntries, Runnable, AgreeBefore, SameSupply;
      RunnableAfterwards(w, o, rows, d, list[..k], raising);
      written := RunEntryOrRollBack(w, list[k], raises);
      NextEntry(w, rows, d, list, k, raising, o, runner.Chosen(), mid, Contents());
    }

    /**
      run: the entries of the list, each to its end or rolled back. Together they do exactly what
      RunEntries says, and the counts of the rules and of the extractor add up to the candidates and
      facts that were added.
     */
    method Run(w: World, raises: Entry -> bool) returns (candidatesAdded: nat, factsAdded: nat)
      requires Usable() && Runnable(w, runner.Chosen(), runner.Current())
      modifies this`orgs, this`facts, runner, runner.db
      ensures Usable()
      ensures var raising := set e | e in ENTRIES && raises(e);
        Contents() == RunEntries(w, runner.Chosen(), rows, old(Contents()), ENTRIES, raising)
      ensures |runner.db.candidates| == |old(runner.db.candidates)| + candidatesAdded
      ensures |facts| == |old(facts)| + factsAdded
    {
      ghost var raising := set e | e in ENTRIES && raises(e);
      ghost var d := Contents();
      candidatesAdded, factsAdded := 0, 0;
      NothingRun(w, runner.Chosen(), rows, d, raising);
      assert ThroughFirst(w, d, ENTRIES, raising, 0);
      for k := 0 to |ENTRIES|
        invariant ThroughFirst(w, d, ENTRIES, raising, k)
        invariant |runner.db.candidates| == |old(runner.db.candidates)| + candidatesAdded
        invariant |facts| == |old(facts)| + factsAdded
      {
        hide ThroughFirst, Runnable, Usable;
        assert raises(ENTRIES[k]) <==> ENTRIES[k] in raising;
        var written := Advance(w, ENTRIES, k, raises(ENTRIES[k]), d, raising);
        if ENTRIES[k].RuleEntry? {
          candidatesAdded := candidatesAdded + written;
        } else {
          factsAdded := factsAdded + written;
        }
      }
      hide Runnable, Usable, RunEntries;
      assert ENTRIES[..|ENTRIES|] == ENTRIES;
    }
  }

  lemma NothingRun(w: World, o: Oracle, n: Facts.NewRows, d: Database, raising: set<Entry>)
    ensures RunEntries(w, o, n, d, ENTRIES[..0], raising) == d
  {
  }

  lemma RunnableAfterwards(w: World, o: Oracle, n: Facts.NewRows, d: Database, entries: seq<Entry>, raising: set<Entry>)
    requires Runnable(w, o, d.state) && SameSupply(o, n)
    ensures Scans(w, RunEntries(w, o, n, d, entries, raising).state.store)
  {
    hide RunEntries, Indexed, Supplies, Scans;
    RunEntriesSettle(w, o, n, d, entries, raising);
  }

  lemma StillRunnable(w: World, x: Oracle, y: Oracle, st: State, n: Facts.NewRows)
    requires Runnable(w, x, st) && x.newIdentity == y.newIdentity && SameSupply(x, n)
    ensures Runnable(w, y, st) && SameSupply(y, n)
  {
  }

  lemma NamedProfile(st: State, c: Connection)
    requires Indexed(st) && c.id in ProfilesOf(st) && ProfilesOf(st)[c.id].displayName.Some?
    ensures RuleRuns.Named(st, Linkedin(c.id, DisplayName(c)))
  {
  }

  /** What the cache holds after an upsert is what the table holds. */
  lemma CachedProfile(st: State, o: Oracle, n: Facts.NewRows, c: Connection, id: IdentityId,
                      after: map<string, Facts.Profile>)
    requires Indexed(st) && Supplies(o, st) && SameSupply(o, n)
    requires c.id in ProfilesOf(st) ==> ProfilesOf(st)[c.id].displayName == None
    requires var u := Upserted(st, o, Linkedin(c.id, DisplayName(c))); c.id in u.profiles && id == u.profiles[c.id]
    requires after == ProfilesOf(st)[c.id := Facts.Profile(id, DisplayName(c))]
    ensures after == ProfilesOf(Upserted(st, o, Linkedin(c.id, DisplayName(c))))
  {
    UpsertIsUpsert(st, o, n, c, map[], []);
  }
}
