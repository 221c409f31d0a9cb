/**
  Facts read off LinkedIn connections, as the version of the extractor that asks the tables for every
  connection. ResolutionRunner.dfy has the extractor with its caches, proved to do exactly the same.
 */
module StructuredFacts {
  import opened Wrappers
  import opened Connections

  /** A LinkedIn identity row, found by its handle. */
  datatype Profile = Profile(id: nat, displayName: Option<string>)

  datatype Fact = Fact(subject: nat, factType: string, org: Option<nat>, text: Option<string>)

  const EXTRACTED := {"works_at", "has_title"}

  /** identity (LinkedIn rows), organization and fact; each name is unique in its table. */
  datatype Tables = Tables(profiles: map<string, Profile>, orgs: map<string, nat>, facts: seq<Fact>)

  /** The ids the database would give to new rows, and normalise_org_name. */
  datatype NewRows = NewRows(profileId: string -> nat, orgId: string -> nat, normalise: string -> string)

  // ---------------------------------------------------------------- the version without caches

  /** insert ... on conflict do update set display_name = coalesce(identity.display_name, excluded.display_name) */
  function UpsertProfile(t: Tables, w: NewRows, handle: string, name: Option<string>): Tables {
    var row := if handle in t.profiles then t.profiles[handle] else Profile(w.profileId(handle), None);
    t.(profiles := t.profiles[handle := row.(displayName := if row.displayName.Some? then row.displayName else name)])
  }

  function UpsertOrg(t: Tables, w: NewRows, name: string): Tables {
    var canonical := w.normalise(name);
    if canonical in t.orgs then t else t.(orgs := t.orgs[canonical := w.orgId(canonical)])
  }

  function AddFact(t: Tables, f: Fact): Tables {
    if f in t.facts then t else t.(facts := t.facts + [f])
  }

  function WorksAt(t: Tables, w: NewRows, c: Connection): Fact
    requires c.id in t.profiles && c.company.Some? && w.normalise(c.company.value) in t.orgs
  {
    Fact(t.profiles[c.id].id, "works_at", Some(t.orgs[w.normalise(c.company.value)]), None)
  }

  function HasTitle(t: Tables, c: Connection): Fact
    requires c.id in t.profiles && c.position.Some?
  {
    Fact(t.profiles[c.id].id, "has_title", None, c.position)
  }

  function WithProfile(t: Tables, w: NewRows, c: Connection): Tables {
    UpsertProfile(t, w, c.id, DisplayName(c))
  }

  function WithCompany(t: Tables, w: NewRows, c: Connection): Tables
    requires c.id in t.profiles
  {
    if Present(c.company) then
      var u := UpsertOrg(t, w, c.company.value);
      AddFact(u, WorksAt(u, w, c))
    else t
  }

  function WithTitle(t: Tables, c: Connection): Tables
    requires c.id in t.profiles
  {
    if Present(c.position) then AddFact(t, HasTitle(t, c)) else t
  }

  /** One connection, asking the tables for everything. */
  function ExtractOne(t: Tables, w: NewRows, c: Connection): Tables {
    WithTitle(WithCompany(WithProfile(t, w, c), w, c), c)
  }

  function ExtractAll(t: Tables, w: NewRows, connections: seq<Connection>): Tables
    decreases |connections|
  {
    if connections == [] then t
    else ExtractOne(ExtractAll(t, w, connections[..|connections| - 1]), w, connections[|connections| - 1])
  }

  // ---------------------------------------------------------------- properties of the result

  /** Nothing is lost: ids, names and facts stay, and only missing names are filled in. */
  ghost predicate Grows(t: Tables, u: Tables) {
    && (forall h :: h in t.profiles ==> h in u.profiles && u.profiles[h].id == t.profiles[h].id)
    && (forall h :: h in t.profiles && t.profiles[h].displayName.Some? ==> u.profiles[h] == t.profiles[h])
    && (forall o :: o in t.orgs ==> o in u.orgs && u.orgs[o] == t.orgs[o])
    && t.facts <= u.facts
  }

  /** Everything the connection has to say is in the tables. */
  ghost predicate Settled(t: Tables, w: NewRows, c: Connection) {
    && c.id in t.profiles && (t.profiles[c.id].displayName.Some? || DisplayName(c) == None)
    && (c.company.Some? && c.company.value != "" ==>
          var org := w.normalise(c.company.value);
          org in t.orgs && Fact(t.profiles[c.id].id, "works_at", Some(t.orgs[org]), None) in t.facts)
    && (c.position.Some? && c.position.value != "" ==>
          Fact(t.profiles[c.id].id, "has_title", None, c.position) in t.facts)
  }

  lemma ProfileGrows(t: Tables, w: NewRows, c: Connection)
    ensures var u := WithProfile(t, w, c);
      Grows(t, u) && c.id in u.profiles && (u.profiles[c.id].displayName.Some? || DisplayName(c) == None)
  {
  }

  lemma CompanyGrows(t: Tables, w: NewRows, c: Connection)
    requires c.id in t.profiles
    ensures var u := WithCompany(t, w, c);
      && Grows(t, u) && u.profiles == t.profiles
      && (Present(c.company) ==> w.normalise(c.company.value) in u.orgs && WorksAt(u, w, c) in u.facts)
  {
  }

  lemma TitleGrows(t: Tables, c: Connection)
    requires c.id in t.profiles
    ensures var u := WithTitle(t, c);
      && Grows(t, u) && u.profiles == t.profiles && u.orgs == t.orgs
      && (Present(c.position) ==> HasTitle(u, c) in u.facts)
  {
  }

  lemma ExtractOneSettles(t: Tables, w: NewRows, c: Connection)
    ensures Grows(t, ExtractOne(t, w, c)) && Settled(ExtractOne(t, w, c), w, c)
  {
    hide WithProfile, WithCompany, WithTitle;
    var named := WithProfile(t, w, c);
    ProfileGrows(t, w, c);
    var hired := WithCompany(named, w, c);
    CompanyGrows(named, w, c);
    TitleGrows(hired, c);
    var done := WithTitle(hired, c);
    assert forall f :: f in hired.facts ==> f in done.facts by {
      assert done.facts[..|hired.facts|] == hired.facts;
    }
    GrowsTransitively(t, named, hired);
    GrowsTransitively(t, hired, done);
  }

  lemma SettledIsStable(t: Tables, u: Tables, w: NewRows, c: Connection)
    requires Grows(t, u) && Settled(t, w, c)
    ensures Settled(u, w, c)
  {
    assert forall f :: f in t.facts ==> f in u.facts by {
      assert u.facts[..|t.facts|] == t.facts;
    }
  }

  lemma SettledIsFixed(t: Tables, w: NewRows, c: Connection)
    requires Settled(t, w, c)
    ensures ExtractOne(t, w, c) == t
  {
    assert WithProfile(t, w, c).profiles == t.profiles;
  }

  lemma GrowsTransitively(t: Tables, u: Tables, v: Tables)
    requires Grows(t, u) && Grows(u, v)
    ensures Grows(t, v)
  {
    assert v.facts[..|u.facts|] == u.facts && u.facts[..|t.facts|] == t.facts;
    assert v.facts[..|t.facts|] == t.facts;
  }

  lemma {:induction false} ExtractAllSettles(t: Tables, w: NewRows, connections: seq<Connection>)
    ensures Grows(t, ExtractAll(t, w, connections))
    ensures forall c :: c in connections ==> Settled(ExtractAll(t, w, connections), w, c)
    decreases |connections|
  {
    if connections != [] {
      var (rest, last) := (connections[..|connections| - 1], connections[|connections| - 1]);
      var mid := ExtractAll(t, w, rest);
      ExtractAllSettles(t, w, rest);
      ExtractOneSettles(mid, w, last);
      GrowsTransitively(t, mid, ExtractOne(mid, w, last));
      forall c | c in connections ensures Settled(ExtractAll(t, w, connections), w, c) {
        if c in rest {
          SettledIsStable(mid, ExtractOne(mid, w, last), w, c);
        } else {
          assert connections == rest + [last];
        }
      }
    }
  }

  lemma {:induction false} SettledAllFixed(t: Tables, w: NewRows, connections: seq<Connection>)
    requires forall c :: c in connections ==> Settled(t, w, c)
    ensures ExtractAll(t, w, connections) == t
    decreases |connections|
  {
    if connections != [] {
      SettledAllFixed(t, w, connections[..|connections| - 1]);
      SettledIsFixed(t, w, connections[|connections| - 1]);
    }
  }

  /** A second run, over any connections of the first in any order, changes no table and counts nothing. */
  lemma SecondRunAddsNothing(t: Tables, w: NewRows, connections: seq<Connection>, again: seq<Connection>)
    requires forall c :: c in again ==> c in connections
    ensures ExtractAll(ExtractAll(t, w, connections), w, again) == ExtractAll(t, w, connections)
  {
    ExtractAllSettles(t, w, connections);
    SettledAllFixed(ExtractAll(t, w, connections), w, again);
  }

  /** The fact is one that the connection has to say. */
  ghost predicate Says(t: Tables, w: NewRows, c: Connection, f: Fact) {
    && c.id in t.profiles
    && (|| (c.company.Some? && c.company.value != "" && w.normalise(c.company.value) in t.orgs
            && f == Fact(t.profiles[c.id].id, "works_at", Some(t.orgs[w.normalise(c.company.value)]), None))
        || (c.position.Some? && c.position.value != ""
            && f == Fact(t.profiles[c.id].id, "has_title", None, c.position)))
  }

  lemma SaysStays(t: Tables, u: Tables, w: NewRows, c: Connection, f: Fact)
    requires Grows(t, u) && Says(t, w, c, f)
    ensures Says(u, w, c, f)
  {
  }

  lemma ConnectionSays(t: Tables, w: NewRows, c: Connection)
    ensures var u := ExtractOne(t, w, c);
      t.facts <= u.facts && forall k :: |t.facts| <= k < |u.facts| ==> Says(u, w, c, u.facts[k])
  {
  }

  /** What one connection does to the other two tables. */
  lemma ConnectionIsListed(t: Tables, w: NewRows, c: Connection)
    ensures var u := ExtractOne(t, w, c);
      && u.profiles.Keys == t.profiles.Keys + {c.id}
      && (forall h :: h in t.profiles && h != c.id ==> u.profiles[h] == t.profiles[h])
      && u.profiles[c.id].id == (if c.id in t.profiles then t.profiles[c.id].id else w.profileId(c.id))
      && u.profiles[c.id].displayName ==
        (if c.id in t.profiles && t.profiles[c.id].displayName.Some? then t.profiles[c.id].displayName
         else DisplayName(c))
    ensures var (orgs, after) := (t.orgs, ExtractOne(t, w, c).orgs);
      if c.company.Some? && c.company.value != "" && w.normalise(c.company.value) !in orgs
      then after == orgs[w.normalise(c.company.value) := w.orgId(w.normalise(c.company.value))]
      else after == orgs
  {
    var named := WithProfile(t, w, c);
    CompanyGrows(named, w, c);
    TitleGrows(WithCompany(named, w, c), c);
    hide WithTitle, AddFact, DisplayName, Grows;
  }

  /** A connection that had something left to say says the fact. */
  ghost predicate SaidBy(t: Tables, u: Tables, w: NewRows, connections: seq<Connection>, f: Fact) {
    exists c :: c in connections && !Settled(t, w, c) && Says(u, w, c, f)
  }

  /** Every fact that u has more than t is said by one of the connections. */
  ghost predicate OnlySaid(t: Tables, u: Tables, w: NewRows, connections: seq<Connection>) {
    t.facts <= u.facts && forall k :: |t.facts| <= k < |u.facts| ==> SaidBy(t, u, w, connections, u.facts[k])
  }

  lemma OneConnectionSays(t: Tables, w: NewRows, c: Connection)
    ensures OnlySaid(t, ExtractOne(t, w, c), w, [c])
  {
    var u := ExtractOne(t, w, c);
    if Settled(t, w, c) {
      SettledIsFixed(t, w, c);
    } else {
      ConnectionSays(t, w, c);
      hide ExtractOne, Settled, Says;
      assert c in [c];
      assert forall f :: Says(u, w, c, f) ==> SaidBy(t, u, w, [c], f);
    }
  }

  lemma SaidForLonger(t: Tables, mid: Tables, u: Tables, w: NewRows, rest: seq<Connection>, last: Connection)
    requires Grows(t, mid) && Grows(mid, u) && OnlySaid(t, mid, w, rest) && OnlySaid(mid, u, w, [last])
    ensures OnlySaid(t, u, w, rest + [last])
  {
    hide Grows, Settled, Says;
    var all := rest + [last];
    forall f | SaidBy(t, mid, w, rest, f) ensures SaidBy(t, u, w, all, f) {
      var c :| c in rest && !Settled(t, w, c) && Says(mid, w, c, f);
      SaysStays(mid, u, w, c, f);
      assert c in all;
    }
    forall f | SaidBy(mid, u, w, [last], f) ensures SaidBy(t, u, w, all, f) {
      if Settled(t, w, last) {
        SettledIsStable(t, mid, w, last);
      }
      assert last in all;
    }
    hide SaidBy;
    assert u.facts[..|mid.facts|] == mid.facts && u.facts[..|t.facts|] == mid.facts[..|t.facts|] == t.facts;
  }

  /** A connection that has nothing left to say before the run adds nothing in it. */
  lemma {:induction false} OnlyUnsettledSay(t: Tables, w: NewRows, connections: seq<Connection>)
    ensures OnlySaid(t, ExtractAll(t, w, connections), w, connections)
    decreases |connections|
  {
    hide OnlySaid, Grows, ExtractOne, Settled;
    if connections == [] {
      NothingSaid(t, w);
    } else {
      var (rest, last) := (connections[..|connections| - 1], connections[|connections| - 1]);
      assert connections == rest + [last];
      OnlyUnsettledSay(t, w, rest);
      ExtractAllSettles(t, w, rest);
      var mid := ExtractAll(t, w, rest);
      OneConnectionSays(mid, w, last);
      ExtractOneSettles(mid, w, last);
      SaidForLonger(t, mid, ExtractOne(mid, w, last), w, rest, last);
    }
  }

  lemma NothingSaid(t: Tables, w: NewRows)
    ensures OnlySaid(t, t, w, [])
  {
  }

  ghost predicate NoDuplicates(facts: seq<Fact>) {
    forall i, j :: 0 <= i < j < |facts| ==> facts[i] != facts[j]
  }

  /** No run ever inserts a fact twice. */
  lemma {:induction false} NoDuplicateFacts(t: Tables, w: NewRows, connections: seq<Connection>)
    requires NoDuplicates(t.facts)
    ensures NoDuplicates(ExtractAll(t, w, connections).facts)
    decreases |connections|
  {
    if connections != [] {
      NoDuplicateFacts(t, w, connections[..|connections| - 1]);
    }
  }
}
