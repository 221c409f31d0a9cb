/**
  The five rules as the code runs them: loops that fill dictionaries, propose or queue each pair as
  it is found, and count. Every rule is proved to do to the store exactly what RuleRuns says.
 */
module RuleRunner {
  import opened Text
  import opened Wrappers
  import opened StoreModel
  import opened SafetyChecks
  import opened PersonForest
  import opened Connections
  import opened RuleMatching
  import opened RuleRuns
  import opened MergeStore
  import Effects

  // ---------------------------------------------------------------- supplying ids and names

  /** Person ids that merges from here on would be given are new. */
  ghost predicate SuppliesPersons(newPerson: nat -> PersonId, s: Store) {
    && (forall n :: |s.log| <= n ==> newPerson(n) !in s.persons)
    && (forall n, m :: n != m ==> newPerson(n) != newPerson(m))
  }

  lemma DecisionKeepsSupply(s: Store, o: Oracle, a: IdentityId, b: IdentityId, m: Match)
    requires Sound(s) && SuppliesPersons(o.newPerson, s) && a in s.identities && b in s.identities
    ensures SuppliesPersons(o.newPerson, Decided(s, o, a, b, m))
    ensures |s.log| <= |Decided(s, o, a, b, m).log|
  {
    hide AutomaticStatus, Joined;
    var t := Decided(s, o, a, b, m);
    assert t.persons.Keys <= s.persons.Keys + {o.newPerson(|s.log|)};
    assert t.persons != s.persons ==> |t.log| == |s.log| + 1;
  }

  ghost predicate AgreeBefore(x: Oracle, y: Oracle, n: nat) {
    x.newIdentity == y.newIdentity && x.newPerson == y.newPerson && forall k :: 0 <= k < n ==> x.names(k) == y.names(k)
  }

  lemma SameUpsert(st: State, x: Oracle, y: Oracle, e: End)
    requires x.newIdentity == y.newIdentity
    ensures Upserted(st, y, e) == Upserted(st, x, e) && Upserted(st, x, e).store.log == st.store.log
  {
  }

  lemma MatchUsesOneName(st: State, x: Oracle, y: Oracle, m: Match)
    requires AgreeBefore(x, y, |Processed(st, x, m).store.log|)
    ensures Processed(st, y, m) == Processed(st, x, m) && IsNew(st, y, m) == IsNew(st, x, m)
    ensures |st.store.log| <= |Processed(st, x, m).store.log|
  {
    hide Upserted, AutomaticStatus;
    SameUpsert(st, x, y, m.a);
    SameUpsert(Upserted(st, x, m.a), x, y, m.b);
  }

  /** Which names merges still to come would choose does not matter to what was done. */
  lemma {:induction false} LaterNamesDoNotMatter(st: State, x: Oracle, y: Oracle, matches: seq<Match>)
    requires AgreeBefore(x, y, |ProcessedAll(st, x, matches).store.log|)
    ensures ProcessedAll(st, y, matches) == ProcessedAll(st, x, matches)
      && Written(st, y, matches) == Written(st, x, matches)
    ensures |st.store.log| <= |ProcessedAll(st, x, matches).store.log|
    decreases |matches|
  {
    hide Processed, IsNew;
    if matches != [] {
      var (rest, last) := (matches[..|matches| - 1], matches[|matches| - 1]);
      LogOnlyGrows(ProcessedAll(st, x, rest), x, last);
      LaterNamesDoNotMatter(st, x, y, rest);
      MatchUsesOneName(ProcessedAll(st, x, rest), x, y, last);
    }
  }

  lemma LogOnlyGrows(st: State, x: Oracle, m: Match)
    ensures |st.store.log| <= |Processed(st, x, m).store.log|
  {
    MatchUsesOneName(st, x, x, m);
  }

  lemma NextPersonIsNew(newPerson: nat -> PersonId, s: Store)
    requires SuppliesPersons(newPerson, s)
    ensures newPerson(|s.log|) !in s.persons
  {
  }

  lemma SuppliedAnyNames(st: State, x: Oracle, y: Oracle)
    requires Supplies(x, st) && x.newIdentity == y.newIdentity
    ensures Supplies(y, st)
  {
  }

  /** One more match, with the names it chose added to the ones chosen before. */
  lemma OneMoreMatch(start: State, past: seq<Match>, x: Oracle, y: Oracle, m: Match)
    requires AgreeBefore(x, y, |ProcessedAll(start, x, past).store.log|)
    ensures var s := ProcessedAll(start, x, past);
      && ProcessedAll(start, y, past + [m]) == Processed(s, y, m)
      && Written(start, y, past + [m]) == Written(start, x, past) + (if IsNew(s, y, m) then 1 else 0)
  {
    hide Processed, IsNew;
    LaterNamesDoNotMatter(start, x, y, past);
    assert (past + [m])[..|past|] == past;
  }

  lemma DecidedIsProcessed(s: State, x: Oracle, y: Oracle, m: Match, u: State)
    requires x.newIdentity == y.newIdentity
    requires u == Upserted(Upserted(s, x, m.a), x, m.b) && Ready(u, m.a) && Ready(u, m.b)
    ensures Processed(s, y, m) == u.(store := Decided(u.store, y, IdOf(u, m.a), IdOf(u, m.b), m))
    ensures IsNew(s, y, m) <==> !HasCandidate(u.store.candidates, IdOf(u, m.a), IdOf(u, m.b))
  {
    hide Upserted, Decided;
    SameUpsert(s, x, y, m.a);
    SameUpsert(Upserted(s, x, m.a), x, y, m.b);
  }

  lemma AgreesThroughout(x: Oracle, y: Oracle, z: Oracle, few: nat, many: nat)
    requires AgreeBefore(x, y, few) && AgreeBefore(y, z, many) && few <= many
    ensures AgreeBefore(x, z, few)
  {
  }

  /** A rule that started from `start` has dealt with `past` and has come to `s`, counting `count`. */
  ghost predicate Underway(start: State, first: Oracle, past: seq<Match>, s: State, o: Oracle, count: nat) {
    && s == ProcessedAll(start, o, past)
    && count == Written(start, o, past)
    && Grows(start, s)
    && |start.store.log| <= |s.store.log|
    && AgreeBefore(first, o, |start.store.log|)
  }

  /** What UpsertBoth and Decide did together is one more match of the rule. */
  lemma OneMoreUnderway(start: State, first: Oracle, past: seq<Match>, s: State, x: Oracle, y: Oracle, count: nat,
                        m: Match,
                        u: State)
    requires Underway(start, first, past, s, x, count) && AgreeBefore(x, y, |s.store.log|)
    requires Resolvable(start, m.a) && Resolvable(start, m.b) && Indexed(s) && Supplies(x, s)
    requires u == Upserted2(s, x, m) && Ready(u, m.a) && Ready(u, m.b)
    ensures Underway(start, first, past + [m], u.(store := Decided(u.store, y, IdOf(u, m.a), IdOf(u, m.b), m)), y,
                     count + if HasCandidate(u.store.candidates, IdOf(u, m.a), IdOf(u, m.b)) then 0 else 1)
  {
    hide Grows, Decided, Upserted, Processed, ProcessedAll, Written, IsNew, Resolvable, Ready, Indexed, Supplies;
    StaysResolvable(start, s, m.a);
    StaysResolvable(start, s, m.b);
    SuppliedAnyNames(s, x, y);
    OneMoreMatch(start, past, x, y, m);
    DecidedIsProcessed(s, x, y, m, u);
    ProcessedSettles(s, y, m);
    LogOnlyGrows(s, y, m);
    GrowsTransitively(start, s, Processed(s, y, m));
    AgreesThroughout(first, x, y, |start.store.log|, |s.store.log|);
  }

  lemma UnderwayGrows(start: State, first: Oracle, past: seq<Match>, s: State, o: Oracle, count: nat, e: End)
    requires Underway(start, first, past, s, o, count) && Resolvable(start, e)
    ensures Resolvable(s, e)
  {
  }

  lemma StaysReady(s: State, t: State, e: End)
    requires Grows(s, t) && Ready(s, e)
    ensures Ready(t, e) && IdOf(t, e) == IdOf(s, e)
  {
  }

  // ---------------------------------------------------------------- dictionaries

  /** outlook_by_handle */
  method IndexOutlook(rows: seq<Row>) returns (table: map<string, IdentityId>)
    ensures table == OutlookByHandle(rows)
  {
    table := map[];
    for k := 0 to |rows|
      invariant table == OutlookByHandle(rows[..k])
    {
      assert rows[..k + 1][..k] == rows[..k];
      if rows[k].channel == "outlook" {
        table := table[rows[k].handle := rows[k].i];
      }
    }
    assert rows[..|rows|] == rows;
  }

  /** whatsapp_by_digits, with setdefault: the first row of a number keeps it. */
  method IndexWhatsapp(rows: seq<Row>, excluded: set<string>) returns (table: map<string, IdentityId>)
    ensures table == WhatsappByDigits(rows, excluded)
  {
    table := map[];
    for k := 0 to |rows|
      invariant table == WhatsappByDigits(rows[..k], excluded)
    {
      assert rows[..k + 1][..k] == rows[..k];
      if rows[k].channel == "whatsapp" {
        var digits := PhoneDigits(rows[k].handle);
        if digits.Some? && digits.value !in excluded {
          if digits.value !in table {
            table := table[digits.value := rows[k].i];
          }
        }
      }
    }
    assert rows[..|rows|] == rows;
  }

  /** The loop that stops at the first key of a contact record the dictionary has. */
  method FindFirst(keys: seq<string>, table: map<string, IdentityId>) returns (found: Option<string>)
    ensures found == FirstKnown(keys, table)
  {
    for k := 0 to |keys|
      invariant FirstKnown(keys, table) == FirstKnown(keys[k..], table)
    {
      if keys[k] in table {
        return Some(keys[k]);
      }
      assert keys[k..][1..] == keys[k + 1..];
    }
    found := None;
  }

  lemma RulesHaveNames(m: Match)
    ensures m.rule in RULE_NAMES ==> !IsBlank(m.rule)
  {
    assert m.rule in RULE_NAMES ==> !IsSpace(m.rule[0]);
  }

  /**
    Running a rule of the list from `s` led to `t`, for the names `o` that its merges chose on top of
    those chosen before, and the rule's count is the number of candidates it added.
   */
  ghost predicate Ran(w: World, rule: Rule, s: State, first: Oracle, t: State, o: Oracle, written: nat) {
    && t == RuleRun(w, o, s, rule)
    && |t.store.candidates| == |s.store.candidates| + written
    && AgreeBefore(first, o, |s.store.log|)
    && |s.store.log| <= |t.store.log|
    && Grows(s, t)
  }

  lemma UnderwayRan(w: World, rule: Rule, start: State, first: Oracle, past: seq<Match>, s: State, o: Oracle,
                    count: nat)
    requires Underway(start, first, past, s, o, count) && past == Matches(w, start.store, rule)
    ensures Ran(w, rule, start, first, s, o, count)
  {
    RuleCounts(start, o, past);
  }

  lemma NothingFound(emails: seq<string>, phones: seq<string>, outlook: map<string, IdentityId>,
                     whatsapp: map<string, IdentityId>)
    ensures emails == [] ==> FirstKnown(Lowered(emails), outlook) == None
    ensures phones == [] ==> FirstKnown(phones, whatsapp) == None
  {
  }

  lemma ScannedRowsAreKnown(w: World, s: Store)
    requires Scans(w, s)
    ensures RowsKnown(RowsOf(s, w.order), s.identities.Keys)
  {
  }

  lemma EmailMatchHasName(rows: seq<Row>, connections: seq<Connection>, m: Match)
    requires m in EmailMatches(rows, connections)
    ensures !IsBlank(m.rule)
  {
    EmailMatchIff(rows, connections, m);
    RulesHaveNames(m);
  }

  /** One contact record: the pair it links, if one of its emails and one of its phones is known. */
  method FindBridge(e: AddressBookEntry, outlook: map<string, IdentityId>, whatsapp: map<string, IdentityId>)
    returns (found: Option<Match>)
    ensures BridgeOf(e, outlook, whatsapp) == if found.Some? then [found.value] else []
    ensures found.Some? ==> found.value.a.Existing? && found.value.b.Existing? && !IsBlank(found.value.rule)
    ensures found.Some? ==> found.value.a.i in outlook.Values && found.value.b.i in whatsapp.Values
  {
    hide FirstKnown, Lowered, IsBlank;
    found := None;
    NothingFound(e.emails, e.phones, outlook, whatsapp);
    if e.emails == [] || e.phones == [] {
      return;
    }
    var email := FindFirst(Lowered(e.emails), outlook);
    if email == None {
      return;
    }
    var phone := FindFirst(e.phones, whatsapp);
    if phone == None {
      return;
    }
    FirstKnownIsFirst(Lowered(e.emails), outlook);
    FirstKnownIsFirst(e.phones, whatsapp);
    assert outlook[email.value] in outlook.Values && whatsapp[phone.value] in whatsapp.Values;
    found := Some(Match(Existing(outlook[email.value]), Existing(whatsapp[phone.value]), "contact_bridge", true,
                        IsGenericRole(email.value)));
    RulesHaveNames(found.value);
  }

  lemma NamesakesAreKnown(rows: seq<Row>, name: seq<string>, candidates: set<IdentityId>, ids: set<IdentityId>)
    requires RowsKnown(rows, ids)
    ensures RowsKnown(Namesakes(rows, name, candidates), ids)
  {
    forall r | r in Namesakes(rows, name, candidates) ensures r.i in ids {
      NamesakeIff(rows, name, candidates, r);
    }
  }

  /** by_name, with its keys in the order they were first seen. */
  method GroupByName(rows: seq<Row>, candidates: set<IdentityId>)
    returns (names: seq<seq<string>>, byName: map<seq<string>, seq<Row>>)
    ensures names == NamesInOrder(rows, candidates)
    ensures forall name :: name in names ==> name in byName && byName[name] == Namesakes(rows, name, candidates)
  {
    names, byName := [], map[];
    for k := 0 to |rows|
      invariant names == NamesInOrder(rows[..k], candidates)
      invariant forall name :: name in names <==> name in byName
      invariant forall name :: name in names ==> byName[name] == Namesakes(rows[..k], name, candidates)
    {
      assert rows[..k + 1][..k] == rows[..k];
      if Dedupable(rows[k], candidates) {
        var name := NameOf(rows[k]);
        NamesAreThose(rows[..k], candidates, name);
        if name !in byName {
          names, byName := names + [name], byName[name := [rows[k]]];
        } else {
          byName := byName[name := byName[name] + [rows[k]]];
        }
      }
    }
    assert rows[..|rows|] == rows;
  }

  lemma CorrelationsAreMatches(w: World, s: Store)
    ensures Matches(w, s, LinkedinCorrelation) == Correlations(w.connections, RowsOf(s, w.order))
  {
  }

  lemma NoCorrelations(rows: seq<Row>)
    ensures Correlations([], rows) == []
  {
  }

  lemma OneMoreConnection(connections: seq<Connection>, c: Connection, rows: seq<Row>)
    ensures Correlations(connections + [c], rows) == Correlations(connections, rows) + CorrelationsOf(c, rows)
  {
    assert (connections + [c])[..|connections|] == connections;
  }

  /** A LinkedIn end has a row of its own, inserted or already there, and a name if it is given one. */
  ghost predicate IsUpserted(x: map<IdentityId, Identity>, y: map<IdentityId, Identity>,
                             before: map<string, IdentityId>, after: map<string, IdentityId>, e: End,
                             newIdentity: string -> IdentityId, i: IdentityId) {
    match e
    case Existing(j) => i == j && y == x && after == before
    case Linkedin(handle, name) =>
      if handle in before then
        && i == before[handle] && after == before && i in x
        && y == x[i := x[i].(displayName := if x[i].displayName.Some? then x[i].displayName else name)]
      else
        && i == newIdentity(handle) && after == before[handle := i]
        && y == x[i := Identity("linkedin", handle, name, None, false)]
  }

  class RuleRunner {
    const db: IdentityDatabase
    const newIdentity: string -> IdentityId
    const newPerson: nat -> PersonId
    /** The unique index on (channel, handle), as far as LinkedIn rows go. */
    var profiles: map<string, IdentityId>
    var count: nat
    ghost var names: nat -> Names
    /** Where the rule being run started, with which names, and the matches it has dealt with. */
    ghost var start: State
    ghost var startNames: nat -> Names
    ghost var past: seq<Match>

    ghost function Chosen(): Oracle
      reads this`names
    {
      Oracle(newIdentity, newPerson, names)
    }

    function Current(): State
      reads this`profiles, db
    {
      State(db.Tables(), profiles)
    }

    ghost predicate Usable()
      reads this`profiles, this`names, db
    {
      db.Valid() && Indexed(Current()) && Supplies(Chosen(), Current()) && SuppliesPersons(newPerson, db.Tables())
    }

    /** So far this rule has dealt with the matches `past`, starting from `start`. */
    ghost predicate Valid()
      reads this, db
    {
      Usable() && Underway(start, Oracle(newIdentity, newPerson, startNames), past, Current(), Chosen(), count)
    }

    constructor (db: IdentityDatabase, profiles: map<string, IdentityId>, newIdentity: string -> IdentityId,
                 newPerson: nat -> PersonId)
      requires db.Valid() && Indexed(State(db.Tables(), profiles)) && SuppliesPersons(newPerson, db.Tables())
      requires Supplies(Oracle(newIdentity, newPerson, n => Names("", None)), State(db.Tables(), profiles))
      ensures Valid() && this.db == db && Current() == State(db.Tables(), profiles)
    {
      this.db, this.profiles, this.newIdentity, this.newPerson := db, profiles, newIdentity, newPerson;
      count, past, names := 0, [], n => Names("", None);
      start, startNames := State(db.Tables(), profiles), n => Names("", None);
      new;
      GrowsFromItself(start);
    }

    /** A rule starts: count = 0 */
    method Begin()
      requires Usable()
      modifies this`count, this`start, this`startNames, this`past
      ensures Valid() && start == Current() && startNames == names && past == [] && count == 0
    {
      count, past, start, startNames := 0, [], Current(), names;
      GrowsFromItself(start);
    }

    ghost predicate Working(s: State, o: Oracle, matches: seq<Match>)
      reads this, db
    {
      Valid() && start == s && Oracle(newIdentity, newPerson, startNames) == o && past == matches
    }

    /** return count */
    method Finish(w: World, ghost rule: Rule) returns (written: nat)
      requires Valid() && past == Matches(w, start.store, rule)
      ensures Ran(w, rule, start, Oracle(newIdentity, newPerson, startNames), Current(), Chosen(), written)
    {
      UnderwayRan(w, rule, start, Oracle(newIdentity, newPerson, startNames), past, Current(), Chosen(), count);
      written := count;
    }

    method Upsert(e: End) returns (i: IdentityId)
      requires Usable() && Resolvable(Current(), e)
      modifies this`profiles, db`identities
      ensures Usable() && Current() == Upserted(old(Current()), Chosen(), e)
      ensures Ready(Current(), e) && i == IdOf(Current(), e)
      ensures IsUpserted(old(db.identities), db.identities, old(profiles), profiles, e, newIdentity, i)
      ensures db.persons == old(db.persons) && db.mergeLog == old(db.mergeLog) && db.candidates == old(db.candidates)
    {
      ghost var s := Current();
      UpsertGrows(s, Chosen(), e);
      match e
      case Existing(j) => i := j;
      case Linkedin(handle, name) =>
        if handle !in profiles {
          i := newIdentity(handle);
          db.identities := db.identities[i := Identity("linkedin", handle, name, None, false)];
          profiles := profiles[handle := i];
        } else {
          i := profiles[handle];
          if db.identities[i].displayName == None {
            db.identities := db.identities[i := db.identities[i].(displayName := name)];
          }
        }
        SameTablesKeepSound(s.store, db.Tables());
    }

    /** Propose or queue one pair: what apply_merge names the person, if it merges, becomes part of `names`. */
    method Decide(a: IdentityId, b: IdentityId, m: Match) returns (written: bool)
      requires Usable() && a in db.identities && b in db.identities && !IsBlank(m.rule)
      modifies this`names, db
      ensures Usable() && AgreeBefore(old(Chosen()), Chosen(), |old(db.mergeLog)|)
      ensures Current() == old(Current()).(store := Decided(old(db.Tables()), Chosen(), a, b, m))
      ensures written == !HasCandidate(old(db.candidates), a, b)
      ensures m.automatic ==>
        Effects.IsProposal(old(db.Tables()), db.Tables(), a, b, m.rule, m.blocked, newPerson(|old(db.mergeLog)|))
      ensures !m.automatic ==>
        if Effects.Named(old(db.candidates), a, b) then db.Tables() == old(db.Tables())
        else Effects.IsAppended(old(db.Tables()), db.Tables(), Candidate(a, b, m.rule, Pending))
    {
      hide Sound, Grows, Indexed, Supplies, SuppliesPersons, Merged, AutomaticStatus, Survivor;
      hide Effects.IsProposal, Effects.Named, HasCandidate;
      ghost var s := Current();
      Effects.NamedIff(db.candidates, a, b);
      var n := |db.mergeLog|;
      assert newPerson(n) !in db.persons by {
        NextPersonIsNew(newPerson, s.store);
      }
      if m.automatic {
        written := db.ProposeAndMaybeConfirm(a, b, m.rule, m.blocked, newPerson(n));
        ghost var chosen := db.NamesOf(Survivor(s.store, a, b, newPerson(n)));
        ghost var before := names;
        names := (k: nat) => if k == n then chosen else before(k);
      } else {
        written := db.QueueForReview(a, b, m.rule);
      }
      SuppliedAnyNames(s, old(Chosen()), Chosen());
      DecidedGrows(s, Chosen(), a, b, m);
      DecisionKeepsSupply(s.store, Chosen(), a, b, m);
    }

    /** The identities of a pair, inserting or naming LinkedIn rows on the way. */
    method UpsertBoth(m: Match) returns (a: IdentityId, b: IdentityId)
      requires Usable() && Resolvable(Current(), m.a) && Resolvable(Current(), m.b)
      modifies this`profiles, db`identities
      ensures Usable() && Current() == Upserted2(old(Current()), Chosen(), m)
      ensures Ready(Current(), m.a) && Ready(Current(), m.b) && a == IdOf(Current(), m.a) && b == IdOf(Current(), m.b)
      ensures db.mergeLog == old(db.mergeLog)
    {
      hide Sound, Grows, Indexed, Supplies, SuppliesPersons, Upserted;
      ghost var s := Current();
      UpsertGrows(s, Chosen(), m.a);
      a := Upsert(m.a);
      ghost var mid := Current();
      StaysResolvable(s, mid, m.b);
      UpsertGrows(mid, Chosen(), m.b);
      b := Upsert(m.b);
      StaysReady(mid, Current(), m.a);
    }

    /** One found pair: upsert its LinkedIn side, decide, and bump the count if a row was written. */
    method Process(m: Match)
      requires Valid() && Resolvable(start, m.a) && Resolvable(start, m.b) && !IsBlank(m.rule)
      modifies this`profiles, this`count, this`names, this`past, db
      ensures Valid() && past == old(past) + [m]
    {
      hide Underway, Decided, Upserted, AgreeBefore, Resolvable, Sound, Indexed, Supplies, SuppliesPersons;
      ghost var s, o, n := Current(), Chosen(), count;
      ghost var first := Oracle(newIdentity, newPerson, startNames);
      UnderwayGrows(start, first, past, s, o, n, m.a);
      UnderwayGrows(start, first, past, s, o, n, m.b);
      var a, b := UpsertBoth(m);
      ghost var upserted := Current();
      var written := Decide(a, b, m);
      if written {
        count := count + 1;
      }
      OneMoreUnderway(start, first, past, s, o, Chosen(), n, m, upserted);
      past := past + [m];
    }

    // -------------------------------------------------------------- the rules

    method RuleExactEmailMatch(w: World) returns (written: nat)
      requires Usable() && Scans(w, db.Tables())
      modifies this, db
      ensures Usable() && Ran(w, ExactEmail, old(Current()), old(Chosen()), Current(), Chosen(), written)
    {
      hide Usable, Underway, Ran, Scans, IsBlank, EmailMatches, Resolvable, RowsOf;
      Begin();
      ghost var s, o := Current(), Chosen();
      var found := EmailMatches(RowsOf(db.Tables(), w.order), w.connections);
      MatchesAreResolvable(w, s, ExactEmail);
      for k := 0 to |found|
        invariant Working(s, o, found[..k])
      {
        assert found[k] in found && found[..k + 1] == found[..k] + [found[k]];
        EmailMatchHasName(RowsOf(s.store, w.order), w.connections, found[k]);
        Process(found[k]);
      }
      assert found[..|found|] == found;
      written := Finish(w, ExactEmail);
    }

    method Bridge(e: AddressBookEntry, outlook: map<string, IdentityId>, whatsapp: map<string, IdentityId>)
      requires Valid()
      requires outlook.Values <= start.store.identities.Keys && whatsapp.Values <= start.store.identities.Keys
      modifies this`profiles, this`count, this`names, this`past, db
      ensures Valid() && past == old(past) + BridgeOf(e, outlook, whatsapp)
    {
      hide Usable, Underway, IsBlank, BridgeOf;
      var found := FindBridge(e, outlook, whatsapp);
      if found.Some? {
        Process(found.value);
      }
    }

    method RuleContactBridge(w: World) returns (written: nat)
      requires Usable() && Scans(w, db.Tables())
      modifies this, db
      ensures Usable() && Ran(w, ContactBridge, old(Current()), old(Chosen()), Current(), Chosen(), written)
    {
      hide Usable, Underway, Ran, IsBlank, WhatsappByDigits, OutlookByHandle, BridgeOf, RowsOf, Scans;
      Begin();
      ghost var s, o := Current(), Chosen();
      var rows := RowsOf(db.Tables(), w.order);
      var outlook := IndexOutlook(rows);
      var whatsapp := IndexWhatsapp(rows, {});
      ScannedRowsAreKnown(w, s.store);
      OutlookKnown(rows, s.store.identities.Keys);
      WhatsappKnown(rows, {}, s.store.identities.Keys);
      for k := 0 to |w.book|
        invariant Working(s, o, BridgeMatches(w.book[..k], outlook, whatsapp))
      {
        assert w.book[..k + 1][..k] == w.book[..k];
        Bridge(w.book[k], outlook, whatsapp);
      }
      assert w.book[..|w.book|] == w.book;
      written := Finish(w, ContactBridge);
    }

    /** The numbers in one message's signature, each looked up among the WhatsApp numbers. */
    method SignedBy(sender: IdentityId, phones: seq<string>, whatsapp: map<string, IdentityId>)
      requires Valid() && sender in start.store.identities && whatsapp.Values <= start.store.identities.Keys
      modifies this`profiles, this`count, this`names, this`past, db
      ensures Valid() && past == old(past) + SignatureMatchesOf(sender, phones, whatsapp)
    {
      hide Usable, Underway, IsBlank;
      for j := 0 to |phones|
        invariant Valid() && past == old(past) + SignatureMatchesOf(sender, phones[..j], whatsapp)
      {
        assert phones[..j + 1][..j] == phones[..j];
        if phones[j] in whatsapp {
          assert whatsapp[phones[j]] in whatsapp.Values;
          RulesHaveNames(SignaturePair(sender, whatsapp, phones[j]));
          Process(SignaturePair(sender, whatsapp, phones[j]));
        }
      }
      assert phones[..|phones|] == phones;
    }

    method RuleSignaturePhone(w: World) returns (written: nat)
      requires Usable() && Scans(w, db.Tables())
      modifies this, db
      ensures Usable() && Ran(w, SignaturePhone, old(Current()), old(Chosen()), Current(), Chosen(), written)
    {
      hide Usable, Underway, Ran, IsBlank, WhatsappByDigits, SelfDigits, RowsOf, SignatureMatchesOf;
      Begin();
      ghost var s, o := Current(), Chosen();
      var rows := RowsOf(db.Tables(), w.order);
      var selfDigits := SelfDigits(rows);
      var whatsapp := IndexWhatsapp(rows, selfDigits);
      assert forall m :: m in w.messages && m.sender.Some? ==> m.sender.value in s.store.identities;
      hide Scans;
      ScannedRowsAreKnown(w, s.store);
      WhatsappKnown(rows, selfDigits, s.store.identities.Keys);
      for k := 0 to |w.messages|
        invariant Working(s, o, SignatureMatches(w.messages[..k], whatsapp))
      {
        assert w.messages[..k + 1][..k] == w.messages[..k];
        assert w.messages[k] in w.messages;
        if w.messages[k].sender == None {
          continue;
        }
        SignedBy(w.messages[k].sender.value, w.messages[k].signaturePhones, whatsapp);
      }
      assert w.messages[..|w.messages|] == w.messages;
      written := Finish(w, SignaturePhone);
    }

    /** One connection against every other identity, upserting its own identity at each match. */
    method CorrelateWith(c: Connection, rows: seq<Row>)
      requires Valid() && RowsKnown(rows, start.store.identities.Keys)
      modifies this`profiles, this`count, this`names, this`past, db
      ensures Valid() && past == old(past) + CorrelationsOf(c, rows)
    {
      hide Usable, Underway, IsBlank, SameName;
      for j := 0 to |rows|
        invariant Valid() && past == old(past) + CorrelationsOf(c, rows[..j])
      {
        assert rows[..j + 1][..j] == rows[..j];
        if SameName(c, rows[j]) {
          assert rows[j] in rows;
          RulesHaveNames(Correlation(c, rows[j]));
          Process(Correlation(c, rows[j]));
        }
      }
      assert rows[..|rows|] == rows;
    }

    method RuleLinkedinCorrelation(w: World) returns (written: nat)
      requires Usable() && Scans(w, db.Tables())
      modifies this, db
      ensures Usable() && Ran(w, LinkedinCorrelation, old(Current()), old(Chosen()), Current(), Chosen(), written)
    {
      hide Usable, Underway, Ran, RowsOf, Scans, Correlations, CorrelationsOf, Matches;
      Begin();
      ghost var s, o := Current(), Chosen();
      var rows := RowsOf(db.Tables(), w.order);
      ScannedRowsAreKnown(w, s.store);
      CorrelationsAreMatches(w, s.store);
      NoCorrelations(rows);
      assert w.connections[..0] == [];
      for k := 0 to |w.connections|
        invariant Working(s, o, Correlations(w.connections[..k], rows))
      {
        OneMoreConnection(w.connections[..k], w.connections[k], rows);
        assert w.connections[..k + 1] == w.connections[..k] + [w.connections[k]];
        CorrelateWith(w.connections[k], rows);
      }
      assert w.connections[..|w.connections|] == w.connections;
      written := Finish(w, LinkedinCorrelation);
    }

    /** One row of a group of namesakes with every later one. */
    method PairWith(x: Row, later: seq<Row>)
      requires Valid() && x.i in start.store.identities && RowsKnown(later, start.store.identities.Keys)
      modifies this`profiles, this`count, this`names, this`past, db
      ensures Valid() && past == old(past) + WithEach(x, later)
    {
      hide Usable, Underway, IsBlank;
      for j := 0 to |later|
        invariant Valid() && past == old(past) + WithEach(x, later[..j])
      {
        assert later[j] in later;
        RulesHaveNames(DedupePair(x, later[j]));
        Process(DedupePair(x, later[j]));
        assert WithEach(x, later[..j + 1]) == WithEach(x, later[..j]) + [DedupePair(x, later[j])];
      }
      assert later[..|later|] == later;
    }

    method PairUp(group: seq<Row>)
      requires Valid() && RowsKnown(group, start.store.identities.Keys)
      modifies this`profiles, this`count, this`names, this`past, db
      ensures Valid() && past == old(past) + PairsOf(group)
    {
      hide Usable, Underway, WithEach;
      for i := 0 to |group|
        invariant Valid() && past + PairsOf(group[i..]) == old(past) + PairsOf(group)
      {
        assert group[i] in group && group[i..][1..] == group[i + 1..];
        PairWith(group[i], group[i + 1..]);
      }
    }

    method PairUpAll(names: seq<seq<string>>, byName: map<seq<string>, seq<Row>>, ghost rows: seq<Row>,
                     ghost candidates: set<IdentityId>)
      requires Valid() && RowsKnown(rows, start.store.identities.Keys)
      requires forall name :: name in names ==> name in byName && byName[name] == Namesakes(rows, name, candidates)
      modifies this`profiles, this`count, this`names, this`past, db
      ensures Valid() && past == old(past) + PairsOfAll(rows, names, candidates)
    {
      hide Usable, Underway, PairsOf, Namesakes;
      for k := 0 to |names|
        invariant Valid() && past + PairsOfAll(rows, names[k..], candidates) ==
          old(past) + PairsOfAll(rows, names, candidates)
      {
        assert names[k] in names && names[k..][1..] == names[k + 1..];
        NamesakesAreKnown(rows, names[k], candidates, start.store.identities.Keys);
        PairUp(byName[names[k]]);
      }
    }

    method RuleOutlookDedupe(w: World) returns (written: nat)
      requires Usable() && Scans(w, db.Tables())
      modifies this, db
      ensures Usable() && Ran(w, OutlookDedupe, old(Current()), old(Chosen()), Current(), Chosen(), written)
    {
      hide Usable, Underway, Ran, RowsOf, Namesakes, NamesInOrder, PairsOfAll, Undecided;
      Begin();
      var rows := RowsOf(db.Tables(), w.order);
      var candidates := Undecided(db.Tables(), w);
      var names, byName := GroupByName(rows, candidates);
      ScannedRowsAreKnown(w, start.store);
      PairUpAll(names, byName, rows, candidates);
      written := Finish(w, OutlookDedupe);
    }

    method RunRule(w: World, rule: Rule) returns (written: nat)
      requires Usable() && Scans(w, db.Tables())
      modifies this, db
      ensures Usable() && Ran(w, rule, old(Current()), old(Chosen()), Current(), Chosen(), written)
    {
      hide *;
      match rule
      case ExactEmail => written := RuleExactEmailMatch(w);
      case ContactBridge => written := RuleContactBridge(w);
      case SignaturePhone => written := RuleSignaturePhone(w);
      case OutlookDedupe => written := RuleOutlookDedupe(w);
      case LinkedinCorrelation => written := RuleLinkedinCorrelation(w);
    }
  }
}
