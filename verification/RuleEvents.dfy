/**
  Running a rule is a run of events: whatever is proved of runs (the forest, the closure of the log,
  the queue's laws, the safety of automatic merges) is proved of the rules.
 */
module RuleEvents {
  import opened Text
  import opened Wrappers
  import opened StoreModel
  import opened Runs
  import opened PersonForest
  import opened RuleMatching
  import opened RuleRuns
  import opened RuleRunner

  /** What rules do to a store: insert, name, propose and queue. */
  predicate IsRuleEvent(e: Event) {
    e.Arrive? || e.FillName? || e.Propose? || e.Queue?
  }

  predicate AllRuleEvents(run: seq<Event>) {
    forall k :: 0 <= k < |run| ==> IsRuleEvent(run[k])
  }

  /** t is what a run of rule events makes of s. */
  ghost predicate Reaches(s: Store, t: Store) {
    exists run :: IsRun(s, run) && AllRuleEvents(run) && Final(s, run) == t
  }

  lemma {:induction false} RunsAppend(s: Store, x: seq<Event>, y: seq<Event>)
    requires IsRun(s, x) && IsRun(Final(s, x), y)
    ensures IsRun(s, x + y) && Final(s, x + y) == Final(Final(s, x), y)
    decreases |x|
  {
    hide Step, Possible;
    if x == [] {
      assert x + y == y;
    } else {
      assert (x + y)[1..] == x[1..] + y;
      RunsAppend(Step(s, x[0]), x[1..], y);
    }
  }

  lemma ReachesItself(s: Store)
    ensures Reaches(s, s)
  {
    assert IsRun(s, []) && AllRuleEvents([]) && Final(s, []) == s;
  }

  lemma ReachesTransitively(s: Store, t: Store, u: Store)
    requires Reaches(s, t) && Reaches(t, u)
    ensures Reaches(s, u)
  {
    var x :| IsRun(s, x) && AllRuleEvents(x) && Final(s, x) == t;
    var y :| IsRun(t, y) && AllRuleEvents(y) && Final(t, y) == u;
    RunsAppend(s, x, y);
    assert AllRuleEvents(x + y);
  }

  lemma OneEventReaches(s: Store, e: Event)
    requires Possible(s, e) && IsRuleEvent(e)
    ensures Reaches(s, Step(s, e))
  {
    hide Step, Possible;
    var run := [e];
    assert run[1..] == [] && IsRun(Step(s, e), []);
    assert IsRun(s, run) && AllRuleEvents(run) && Final(s, run) == Step(s, e);
  }

  lemma UpsertIsEvent(st: State, o: Oracle, e: End)
    requires Indexed(st) && Supplies(o, st)
    ensures Reaches(st.store, Upserted(st, o, e).store)
  {
    hide Reaches;
    ReachesItself(st.store);
    if e.Linkedin? {
      if e.handle !in st.profiles {
        OneEventReaches(st.store, Arrive(o.newIdentity(e.handle), Identity("linkedin", e.handle, e.name, None, false)));
      } else {
        var i := st.profiles[e.handle];
        if st.store.identities[i].displayName == None && e.name.Some? {
          OneEventReaches(st.store, FillName(i, e.name.value));
        } else {
          assert st.store.identities[i := st.store.identities[i]] == st.store.identities;
        }
      }
    }
  }

  lemma DecisionIsEvent(s: Store, o: Oracle, a: IdentityId, b: IdentityId, m: Match)
    requires SuppliesPersons(o.newPerson, s) && a in s.identities && b in s.identities && !IsBlank(m.rule)
    ensures Reaches(s, Decided(s, o, a, b, m))
  {
    hide Reaches, Proposed;
    if m.automatic {
      OneEventReaches(s, Propose(a, b, m.rule, m.blocked, o.newPerson(|s.log|), o.names(|s.log|)));
    } else {
      OneEventReaches(s, Queue(a, b, m.rule));
    }
  }

  /** What processing needs to go on. */
  ghost predicate InOrder(o: Oracle, st: State) {
    Sound(st.store) && Indexed(st) && Supplies(o, st) && SuppliesPersons(o.newPerson, st.store)
  }

  lemma UpsertKeepsOrder(st: State, o: Oracle, e: End)
    requires InOrder(o, st)
    ensures InOrder(o, Upserted(st, o, e))
  {
    UpsertGrows(st, o, e);
    var t := Upserted(st, o, e);
    assert t.store.log == st.store.log && t.store.persons == st.store.persons;
    hide Sound, Indexed, Supplies, SuppliesPersons;
    SameTablesKeepSound(st.store, t.store);
    SameSupply(st.store, t.store, o);
  }

  lemma SameSupply(s: Store, t: Store, o: Oracle)
    requires SuppliesPersons(o.newPerson, s) && t.log == s.log && t.persons == s.persons
    ensures SuppliesPersons(o.newPerson, t)
  {
  }

  lemma MatchIsRun(st: State, o: Oracle, m: Match)
    requires InOrder(o, st) && Resolvable(st, m.a) && Resolvable(st, m.b) && !IsBlank(m.rule)
    ensures var t := Processed(st, o, m); InOrder(o, t) && Grows(st, t) && Reaches(st.store, t.store)
  {
    ProcessedSettles(st, o, m);
    hide Sound, Indexed, Supplies, SuppliesPersons, Reaches, Decided, Upserted, Grows, Settled;
    var x := Upserted(st, o, m.a);
    var u := Upserted(x, o, m.b);
    UpsertKeepsOrder(st, o, m.a);
    UpsertKeepsOrder(x, o, m.b);
    UpsertIsEvent(st, o, m.a);
    UpsertIsEvent(x, o, m.b);
    ReachesTransitively(st.store, x.store, u.store);
    if Ready(u, m.a) && Ready(u, m.b) {
      var (a, b) := (IdOf(u, m.a), IdOf(u, m.b));
      var t := Decided(u.store, o, a, b, m);
      DecisionIsEvent(u.store, o, a, b, m);
      DecisionKeepsSupply(u.store, o, a, b, m);
      ReachesTransitively(st.store, u.store, t);
      ReachedIsSound(u.store, t);
    }
  }

  lemma ReachedIsSound(s: Store, t: Store)
    requires Sound(s) && Reaches(s, t)
    ensures Sound(t)
  {
    hide Sound;
    var run :| IsRun(s, run) && AllRuleEvents(run) && Final(s, run) == t;
    RunKeepsSound(s, run);
  }

  /** Whatever a rule found, dealing with all of it is a run of events. */
  lemma {:induction false} ProcessingIsRun(st: State, o: Oracle, matches: seq<Match>)
    requires InOrder(o, st) && AllResolvable(st, matches) && forall m :: m in matches ==> !IsBlank(m.rule)
    ensures var t := ProcessedAll(st, o, matches); InOrder(o, t) && Grows(st, t) && Reaches(st.store, t.store)
    decreases |matches|
  {
    hide InOrder, Grows, Reaches, Processed, IsBlank, Resolvable;
    if matches == [] {
      GrowsFromItself(st);
      ReachesItself(st.store);
    } else {
      var (rest, last) := (matches[..|matches| - 1], matches[|matches| - 1]);
      assert last in matches && matches == rest + [last];
      ProcessingIsRun(st, o, rest);
      var mid := ProcessedAll(st, o, rest);
      StaysResolvable(st, mid, last.a);
      StaysResolvable(st, mid, last.b);
      MatchIsRun(mid, o, last);
      GrowsTransitively(st, mid, Processed(mid, o, last));
      ReachesTransitively(st.store, mid.store, Processed(mid, o, last).store);
    }
  }

  lemma MatchesHaveNames(w: World, s: Store, rule: Rule)
    ensures forall m :: m in Matches(w, s, rule) ==> !IsBlank(m.rule)
  {
    forall m | m in Matches(w, s, rule) ensures !IsBlank(m.rule) {
      MatchIsLabelled(w, s, rule, m);
      RulesHaveNames(m);
      hide IsBlank;
    }
  }

  /** Every rule's run, of any length and with any merges in it, is a run of insert, name, propose and queue events. */
  lemma RuleRunIsRun(w: World, o: Oracle, st: State, rule: Rule)
    requires InOrder(o, st) && Scans(w, st.store)
    ensures var t := RuleRun(w, o, st, rule); InOrder(o, t) && Reaches(st.store, t.store)
  {
    hide InOrder, Matches, ProcessedAll, IsBlank, AllResolvable;
    MatchesAreResolvable(w, st, rule);
    MatchesHaveNames(w, st.store, rule);
    ProcessingIsRun(st, o, Matches(w, st.store, rule));
  }
}
