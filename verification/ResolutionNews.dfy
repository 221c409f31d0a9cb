/**
  A later resolution run reads what there is by then. Whatever it adds comes from something that the
  earlier run did not read, or from an entry of the list that raised then.
 */
module ResolutionNews {
  import opened StoreModel
  import opened RuleRuns
  import opened NewMatches
  import opened ResolutionList
  import Facts = StructuredFacts

  /** Two identities that a rule joins by something w had not read, or that raised when w was read. */
  ghost predicate PairHasNews(w: World, v: World, raised: set<Entry>, st: State, name: string, a: IdentityId,
                              b: IdentityId) {
    exists rule, m :: Label(rule) == name && Joins(st, m, a, b)
      && (RuleEntry(rule) in raised || HasNews(w, v, RowsOf(st.store, v.order), rule, m))
  }

  /** A fact that a connection says which w had not read, or which was not extracted then. */
  ghost predicate FactHasNews(w: World, v: World, n: Facts.NewRows, raised: set<Entry>, t: Facts.Tables,
                              f: Facts.Fact) {
    exists c :: c in v.connections && Facts.Says(t, n, c, f) && (FactsEntry in raised || c !in w.connections)
  }

  /** Every candidate, merge and fact that u has more than d has news behind it. */
  ghost predicate OnlyNews(w: World, v: World, n: Facts.NewRows, raised: set<Entry>, d: Database, u: Database) {
    var (s, t) := (d.state.store, u.state.store);
    && s.candidates <= t.candidates && s.log <= t.log && d.facts <= u.facts
    && (forall c :: |s.candidates| <= c < |t.candidates| ==>
          var row := t.candidates[c]; PairHasNews(w, v, raised, u.state, row.rule, row.a, row.b))
    && (forall k :: |s.log| <= k < |t.log| ==>
          var row := t.log[k]; PairHasNews(w, v, raised, u.state, row.rule, row.a, row.b))
    && (forall k :: |d.facts| <= k < |u.facts| ==> FactHasNews(w, v, n, raised, TablesOf(u), u.facts[k]))
  }

  lemma NoNewsOfNothing(w: World, v: World, n: Facts.NewRows, raised: set<Entry>, d: Database)
    ensures OnlyNews(w, v, n, raised, d, d)
  {
  }

  lemma PairNewsStays(w: World, v: World, raised: set<Entry>, s: State, t: State, name: string, a: IdentityId,
                      b: IdentityId)
    requires Scans(v, s.store) && Grows(s, t) && PairHasNews(w, v, raised, s, name, a, b)
    ensures PairHasNews(w, v, raised, t, name, a, b)
  {
    hide Scans, Grows, HasNews, Joins, RowsOf;
    RowsAreStable(v, s, t);
    var rule, m :| Label(rule) == name && Joins(s, m, a, b)
      && (RuleEntry(rule) in raised || HasNews(w, v, RowsOf(s.store, v.order), rule, m));
    JoinsStay(s, t, m, a, b);
  }

  lemma FactNewsStays(w: World, v: World, n: Facts.NewRows, raised: set<Entry>, t: Facts.Tables, u: Facts.Tables,
                      f: Facts.Fact)
    requires Facts.Grows(t, u) && FactHasNews(w, v, n, raised, t, f)
    ensures FactHasNews(w, v, n, raised, u, f)
  {
    var c :| c in v.connections && Facts.Says(t, n, c, f) && (FactsEntry in raised || c !in w.connections);
    Facts.SaysStays(t, u, n, c, f);
  }

  lemma OnlyNewsTransitively(w: World, v: World, n: Facts.NewRows, raised: set<Entry>, d: Database, mid: Database,
                             u: Database)
    requires OnlyNews(w, v, n, raised, d, mid) && OnlyNews(w, v, n, raised, mid, u)
    requires Scans(v, mid.state.store) && DatabaseGrows(mid, u)
    ensures OnlyNews(w, v, n, raised, d, u)
  {
    hide Scans, Grows, Facts.Grows, TablesOf;
    forall name, a, b | PairHasNews(w, v, raised, mid.state, name, a, b)
      ensures PairHasNews(w, v, raised, u.state, name, a, b)
    {
      PairNewsStays(w, v, raised, mid.state, u.state, name, a, b);
    }
    forall f | FactHasNews(w, v, n, raised, TablesOf(mid), f) ensures FactHasNews(w, v, n, raised, TablesOf(u), f) {
      FactNewsStays(w, v, n, raised, TablesOf(mid), TablesOf(u), f);
    }
    hide PairHasNews, FactHasNews;
    var (s, t) := (mid.state.store, u.state.store);
    assert t.candidates[..|s.candidates|] == s.candidates && t.log[..|s.log|] == s.log;
    assert u.facts[..|mid.facts|] == mid.facts;
  }

  lemma PairOfMatchHasNews(w: World, v: World, raised: set<Entry>, st: State, t: State, rule: Rule, name: string,
                           a: IdentityId, b: IdentityId)
    requires Follows(w, v) && RowsOf(t.store, v.order) == RowsOf(st.store, v.order)
    requires RuleEntry(rule) in raised || RuleIsDone(w, st, rule)
    requires PairFrom(st, t, Matches(v, st.store, rule), name, a, b)
    ensures PairHasNews(w, v, raised, t, name, a, b)
  {
    hide Matches, RuleRuns.Settled, HasNews, Joins, RowsOf, Follows;
    var m :| m in Matches(v, st.store, rule) && !RuleRuns.Settled(st, m) && m.rule == name && Joins(t, m, a, b);
    MatchIsLabelled(v, st.store, rule, m);
    NewMatchHasNews(w, v, st.store, rule, m);
  }

  lemma RuleAddsOnlyNews(w: World, v: World, o: Oracle, n: Facts.NewRows, raised: set<Entry>, d: Database, rule: Rule)
    requires Follows(w, v) && Runnable(v, o, d.state) && SameSupply(o, n)
    requires RuleEntry(rule) in raised || RuleIsDone(w, d.state, rule)
    ensures OnlyNews(w, v, n, raised, d, EntryRun(v, o, n, d, RuleEntry(rule)))
  {
    hide Supplies, Indexed, Scans, Grows, ProcessedAll, Matches, RuleIsDone, PairFrom, PairHasNews, RowsOf, TablesOf,
         Follows;
    var (st, t) := (d.state, RuleRun(v, o, d.state, rule));
    MatchesAreResolvable(v, st, rule);
    OnlyUnsettledWrite(st, o, Matches(v, st.store, rule));
    RuleRunSettles(v, o, st, rule);
    RowsAreStable(v, st, t);
    forall name, a, b | PairFrom(st, t, Matches(v, st.store, rule), name, a, b)
      ensures PairHasNews(w, v, raised, t, name, a, b)
    {
      PairOfMatchHasNews(w, v, raised, st, t, rule, name, a, b);
    }
  }

  lemma ExtractionAddsOnlyNews(w: World, v: World, o: Oracle, n: Facts.NewRows, raised: set<Entry>, d: Database)
    requires Runnable(v, o, d.state) && SameSupply(o, n)
    requires FactsEntry in raised || EntryIsDone(w, n, d, FactsEntry)
    ensures OnlyNews(w, v, n, raised, d, EntryRun(v, o, n, d, FactsEntry))
  {
    var u := ExtractedAll(d, o, n, v.connections);
    ExtractionSettles(d, o, n, v.connections);
    hide Supplies, Indexed, Scans, Grows, ExtractedAll, Facts.ExtractAll, Facts.Settled, Facts.Says;
    Facts.OnlyUnsettledSay(TablesOf(d), n, v.connections);
    forall f | Facts.SaidBy(TablesOf(d), TablesOf(u), n, v.connections, f)
      ensures FactHasNews(w, v, n, raised, TablesOf(u), f)
    {
    }
  }

  /** The second run of part of the list, over a database that has only grown since the first. */
  lemma {:induction false} EntriesAddOnlyNews(w: World, v: World, o: Oracle, n: Facts.NewRows, raised: set<Entry>,
                                              d: Database, entries: seq<Entry>, raising: set<Entry>)
    requires Follows(w, v) && Runnable(v, o, d.state) && SameSupply(o, n)
    requires Scans(w, d.state.store) && w.lastAutomated.Keys <= d.state.store.identities.Keys
    requires forall e :: e in entries ==> e in raised || EntryIsDone(w, n, d, e)
    ensures OnlyNews(w, v, n, raised, d, RunEntries(v, o, n, d, entries, raising))
    decreases |entries|
  {
    hide OnlyNews, DatabaseGrows, EntryIsDone, EntryRun, Scans, Indexed, Supplies, SameSupply, Follows;
    if entries == [] {
      NoNewsOfNothing(w, v, n, raised, d);
    } else {
      var (rest, last) := (entries[..|entries| - 1], entries[|entries| - 1]);
      assert entries == rest + [last];
      EntriesAddOnlyNews(w, v, o, n, raised, d, rest, raising);
      RunEntriesSettle(v, o, n, d, rest, raising);
      var mid := RunEntries(v, o, n, d, rest, raising);
      if last !in raising {
        if last !in raised {
          EntryStaysDone(w, n, d, mid, last);
        }
        EntryAddsOnlyNews(w, v, o, n, raised, mid, last);
        EntrySettles(v, o, n, mid, last);
        OnlyNewsTransitively(w, v, n, raised, d, mid, EntryRun(v, o, n, mid, last));
      }
    }
  }

  lemma EntryAddsOnlyNews(w: World, v: World, o: Oracle, n: Facts.NewRows, raised: set<Entry>, d: Database, e: Entry)
    requires Follows(w, v) && Runnable(v, o, d.state) && SameSupply(o, n)
    requires e in raised || EntryIsDone(w, n, d, e)
    ensures OnlyNews(w, v, n, raised, d, EntryRun(v, o, n, d, e))
  {
    hide OnlyNews, Follows, Supplies, Indexed, Scans, Matches, Facts.Settled, RuleRun, ExtractedAll;
    match e
    case RuleEntry(rule) => RuleAddsOnlyNews(w, v, o, n, raised, d, rule);
    case FactsEntry => ExtractionAddsOnlyNews(w, v, o, n, raised, d);
  }

  /**
    After a run of the list, and whatever has only added to the database since (merges, reviews, filled
    names, new identities), another run with its own rows, connections, address book and messages adds no
    candidate, no merge and no fact but those that have news behind them: an identity that the first run's
    scan did not return, a connection, record or message it did not read, an identity whose latest message
    has stopped being automated; or the entry had raised in the first run.
   */
  lemma SecondRunAddsOnlyNews(w: World, v: World, first: Oracle, n: Facts.NewRows, second: Oracle, m: Facts.NewRows,
                              d: Database, raised: set<Entry>, later: Database, raising: set<Entry>)
    requires Runnable(w, first, d.state) && SameSupply(first, n) && m.normalise == n.normalise
    requires DatabaseGrows(RunEntries(w, first, n, d, ENTRIES, raised), later)
    requires Follows(w, v) && Runnable(v, second, later.state) && SameSupply(second, m)
    ensures OnlyNews(w, v, m, raised, later, RunEntries(v, second, m, later, ENTRIES, raising))
  {
    hide RunEntries, OnlyNews, EntryIsDone, Indexed, Supplies, SameSupply, Follows;
    var u := RunEntries(w, first, n, d, ENTRIES, raised);
    RunEntriesSettle(w, first, n, d, ENTRIES, raised);
    RowsAreStable(w, u.state, later.state);
    assert w.lastAutomated.Keys <= later.state.store.identities.Keys;
    hide DatabaseGrows, Scans;
    forall e | e in ENTRIES && e !in raised ensures EntryIsDone(w, m, later, e) {
      EntryStaysDone(w, n, u, later, e);
      DoneUnderOtherIds(w, n, m, later, e);
    }
    EntriesAddOnlyNews(w, v, second, m, raised, later, ENTRIES, raising);
  }
}
