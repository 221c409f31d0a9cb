/**
  The store as the code sees it: tables that apply_merge, undo_merge, the automatic rules, the review
  routes and the contact panel update statement by statement. Every method is proved against the
  effect StoreModel, Runs and SideTables give it, so what is proved about runs holds of these calls.
 */
module MergeStore {
  import opened Text
  import opened Wrappers
  import opened StoreModel
  import opened SafetyChecks
  import opened Runs
  import opened PersonForest
  import opened ContactKeys
  import opened Naming
  import opened Effects
  import opened SideTables

  datatype Brief = Brief(summary: string, context: seq<string>, topic: string, graph: string, urgency: int,
                         model: string, promptVersion: string)

  datatype Attempt = Attempt(status: string, errorCode: Option<string>, model: string, inputTokens: Option<nat>,
                             originalInputTokens: Option<nat>, omittedMessages: nat, truncatedText: bool)

  /** The tables whose rows follow a contact key. */
  datatype Sides = Sides(briefs: Table<Brief>, attempts: Table<Attempt>, hidden: set<ContactKey>)

  /** The display names in a set of identities. */
  function DisplayNames(s: Store, group: set<IdentityId>): set<Option<string>> {
    set i | i in group && i in s.identities :: s.identities[i].displayName
  }

  lemma {:induction false} OneMoreKey<T>(table: Table<T>, order: seq<ContactKey>, key: ContactKey, target: ContactKey)
    ensures RelocateAll(table, order + [key], target) == Relocate(RelocateAll(table, order, target), key, target)
    decreases |order|
  {
    if order != [] {
      assert (order + [key])[1..] == order[1..] + [key];
      OneMoreKey(Relocate(table, order[0], target), order[1..], key, target);
    }
  }

  /** Comparing the names of two contacts is comparing their identities' names. */
  lemma NamesOfContacts(s: Store, a: IdentityId, b: IdentityId, namesA: set<Option<string>>,
                        namesB: set<Option<string>>)
    requires a in s.identities && b in s.identities
    requires namesA == DisplayNames(s, s.Contact(s.KeyOf(a))) && namesB == DisplayNames(s, s.Contact(s.KeyOf(b)))
    ensures ContactsContradict(s, a, b) <==> exists x, y :: x in namesA && y in namesB && NamesContradict(x, y)
  {
    if ContactsContradict(s, a, b) {
      var i, j :| i in s.Contact(s.KeyOf(a)) && j in s.Contact(s.KeyOf(b))
        && NamesContradict(s.identities[i].displayName, s.identities[j].displayName);
      assert s.identities[i].displayName in namesA && s.identities[j].displayName in namesB;
    }
  }

  /** A merge's row r: the survivor is named from the whole contact, and both contacts' rows are under its key. */
  ghost predicate Follows(s: Store, x: Sides, t: Store, y: Sides, r: MergeRow) {
    && r.a in s.identities && r.b in s.identities && r.survivor in t.persons
    && Selects(DisplayNames(s, Together(s, r.a, r.b)), t.persons[r.survivor].names)
    && var target := PersonKey(r.survivor);
       var stale := {s.KeyOf(r.a), s.KeyOf(r.b)} - {target};
       && Relocated(x.briefs, stale, target, y.briefs)
       && Relocated(x.attempts, stale, target, y.attempts)
       && y.hidden == (x.hidden - stale) + (if x.hidden * stale != {} then {target} else {})
  }

  /** Whatever a call logs at the end of the merge log, names and side tables follow; nothing else moves them. */
  ghost predicate FollowLog(s: Store, x: Sides, t: Store, y: Sides) {
    if t.log == s.log then y == x else |t.log| == |s.log| + 1 && Follows(s, x, t, y, t.log[|s.log|])
  }

  lemma MergeFollows(s: Store, x: Sides, t: Store, y: Sides, a: IdentityId, b: IdentityId, rule: string, kind: string,
                     newPerson: PersonId, person: PersonId)
    requires a in s.identities && b in s.identities && person in t.persons
    requires IsMerge(s, t, a, b, rule, kind, newPerson, person)
    requires Selects(DisplayNames(s, Together(s, a, b)), t.persons[person].names)
    requires var (target, stale) := (PersonKey(person), {s.KeyOf(a), s.KeyOf(b)} - {PersonKey(person)});
      && Relocated(x.briefs, stale, target, y.briefs) && Relocated(x.attempts, stale, target, y.attempts)
      && y.hidden == (x.hidden - stale) + (if x.hidden * stale != {} then {target} else {})
    ensures FollowLog(s, x, t, y)
  {
    hide Selects, Relocated, DisplayNames, Together;
  }

  lemma SameNamesTogether(s: Store, q: Store, a: IdentityId, b: IdentityId)
    requires q.identities == s.identities && a in s.identities && b in s.identities
    ensures DisplayNames(q, Together(q, a, b)) == DisplayNames(s, Together(s, a, b))
    ensures q.KeyOf(a) == s.KeyOf(a) && q.KeyOf(b) == s.KeyOf(b)
  {
    assert Together(q, a, b) == Together(s, a, b);
    hide Together;
  }

  lemma SameIdentitiesFollow(s: Store, q: Store, x: Sides, t: Store, y: Sides)
    requires q.identities == s.identities && q.log == s.log && FollowLog(q, x, t, y)
    ensures FollowLog(s, x, t, y)
  {
    hide Selects, Relocated, Together, DisplayNames;
    if t.log != s.log {
      SameNamesTogether(s, q, t.log[|s.log|].a, t.log[|s.log|].b);
    }
  }

  class IdentityDatabase {
    var identities: map<IdentityId, Identity>
    var persons: map<PersonId, Person>
    var mergeLog: seq<MergeRow>
    var candidates: seq<Candidate>
    var briefs: Table<Brief>
    var attempts: Table<Attempt>
    var hidden: set<ContactKey>

    function Tables(): Store
      reads this
    {
      Store(identities, persons, mergeLog, candidates)
    }

    function SideTables(): Sides
      reads this
    {
      Sides(briefs, attempts, hidden)
    }

    ghost predicate Valid()
      reads this
    {
      Sound(Tables())
    }

    constructor ()
      ensures Valid() && Tables() == Store(map[], map[], [], [])
      ensures briefs == map[] && attempts == map[] && hidden == {}
    {
      identities, persons, mergeLog, candidates := map[], map[], [], [];
      briefs, attempts, hidden := map[], map[], {};
      new;
      assert RanksDown(persons, map[]);
    }

    // -------------------------------------------------------------- merging

    /** `select display_name from identity where person_id = p`, in whatever order. */
    method DisplayNamesOf(p: PersonId) returns (names: seq<Option<string>>)
      ensures Elements(names) == DisplayNames(Tables(), Tables().Contact(PersonKey(p)))
    {
      names := [];
      var todo := set i | i in identities && identities[i].personId == Some(p);
      ghost var all := todo;
      assert all == Tables().Contact(PersonKey(p));
      while todo != {}
        invariant todo <= all
        invariant Elements(names) == DisplayNames(Tables(), all - todo)
        decreases todo
      {
        var i :| i in todo;
        assert all - (todo - {i}) == (all - todo) + {i};
        assert Elements(names + [identities[i].displayName]) == Elements(names) + {identities[i].displayName};
        assert DisplayNames(Tables(), (all - todo) + {i}) ==
          DisplayNames(Tables(), all - todo) + {identities[i].displayName};
        names := names + [identities[i].displayName];
        todo := todo - {i};
      }
      assert all - {} == all;
    }

    method RelocateBrief(stale: ContactKey, target: ContactKey)
      requires stale != target
      modifies this`briefs
      ensures briefs == Relocate(old(briefs), stale, target)
      ensures var table := old(briefs);
        var moves := stale in table && (target in table ==> table[stale].at > table[target].at);
        briefs == (if moves then table[target := table[stale]] else table) - {stale}
    {
      if stale in briefs {
        if target !in briefs || briefs[stale].at > briefs[target].at {
          briefs := briefs[target := briefs[stale]];
        }
      }
      briefs := briefs - {stale};
    }

    method RelocateAttempt(stale: ContactKey, target: ContactKey)
      requires stale != target
      modifies this`attempts
      ensures attempts == Relocate(old(attempts), stale, target)
      ensures var table := old(attempts);
        var moves := stale in table && (target in table ==> table[stale].at > table[target].at);
        attempts == (if moves then table[target := table[stale]] else table) - {stale}
    {
      if stale in attempts {
        if target !in attempts || attempts[stale].at > attempts[target].at {
          attempts := attempts[target := attempts[stale]];
        }
      }
      attempts := attempts - {stale};
    }

    method RelocateHiddenFlag(stale: ContactKey, target: ContactKey)
      requires stale != target
      modifies this`hidden
      ensures hidden == RelocateHidden(old(hidden), stale, target)
    {
      if stale in hidden {
        hidden := hidden + {target};
      }
      hidden := hidden - {stale};
    }

    /** The loop over stale keys at the end of apply_merge. */
    method RelocateSideTables(stale: set<ContactKey>, target: ContactKey)
      requires target !in stale
      modifies this`briefs, this`attempts, this`hidden
      ensures Relocated(old(briefs), stale, target, briefs)
      ensures Relocated(old(attempts), stale, target, attempts)
      ensures hidden == (old(hidden) - stale) + (if old(hidden) * stale != {} then {target} else {})
    {
      var todo := stale;
      ghost var order: seq<ContactKey> := [];
      while todo != {}
        invariant todo <= stale && Enumerates(order, stale - todo)
        invariant briefs == RelocateAll(old(briefs), order, target)
        invariant attempts == RelocateAll(old(attempts), order, target)
        invariant hidden == (old(hidden) - (stale - todo))
          + (if old(hidden) * (stale - todo) != {} then {target} else {})
        decreases todo
      {
        var key :| key in todo;
        RelocateBrief(key, target);
        RelocateAttempt(key, target);
        RelocateHiddenFlag(key, target);
        OneMoreKey(old(briefs), order, key, target);
        OneMoreKey(old(attempts), order, key, target);
        order := order + [key];
        assert stale - (todo - {key}) == (stale - todo) + {key};
        assert old(hidden) * ((stale - todo) + {key}) ==
          old(hidden) * (stale - todo) + (if key in old(hidden) then {key} else {});
        todo := todo - {key};
      }
      assert stale - {} == stale;
      RelocationKeepsNewest(old(briefs), order, stale, target);
      RelocationKeepsNewest(old(attempts), order, stale, target);
    }

    /** The first half of apply_merge: whose person survives, and who moves. */
    method Converge(a: IdentityId, b: IdentityId, newPerson: PersonId)
      returns (person: PersonId, absorbed: Option<PersonId>, moved: set<IdentityId>)
      requires Valid() && newPerson !in persons && a in identities && b in identities
      modifies this`identities, this`persons
      ensures IsSurvivor(old(Tables()), a, b, newPerson, person)
      ensures var (pa, pb) := (old(identities)[a].personId, old(identities)[b].personId);
        absorbed == if pa.Some? && pb.Some? && pa != pb then pb else None
      ensures forall i :: i in moved <==>
        i in old(identities) && InEither(old(Tables()), a, b, i) && old(identities)[i].personId != Some(person)
      ensures var s := old(Tables());
        && person == Survivor(s, a, b, newPerson) && absorbed == Absorbed(s, a, b) && moved == Moved(s, a, b, newPerson)
        && identities == (map i | i in s.identities ::
             if absorbed.Some? && s.identities[i].personId == absorbed then s.identities[i].(personId := Some(person))
             else s.identities[i])
        && persons.Keys == s.persons.Keys + {person}
        && (forall p :: p in persons ==>
             persons[p] == if absorbed == Some(p) then PersonRow(s, p).(mergedInto := Some(person))
                           else PersonRow(s, p))
    {
      var personA, personB := identities[a].personId, identities[b].personId;
      assert a in Tables().Contact(Tables().KeyOf(a)) && b in Tables().Contact(Tables().KeyOf(b));
      absorbed := None;
      if personA.Some? && personB.Some? && personA != personB {
        moved := set i | i in identities && identities[i].personId == personB;
        person, absorbed := personA.value, personB;
        assert moved == Moved(Tables(), a, b, newPerson);
        identities := map i | i in identities ::
          if identities[i].personId == personB then identities[i].(personId := personA) else identities[i];
        persons := persons[personB.value := persons[personB.value].(mergedInto := personA)];
      } else {
        if personA.Some? {
          person := personA.value;
        } else if personB.Some? {
          person := personB.value;
        } else {
          persons := persons[newPerson := EMPTY_PERSON];
          person := newPerson;
        }
        moved := (if personA != Some(person) then {a} else {}) + (if personB != Some(person) then {b} else {});
      }
    }

    /** Naming a person again from every identity it now holds. */
    method RecomputeNames(person: PersonId) returns (names: Names)
      requires person in persons
      modifies this`persons
      ensures persons == old(persons)[person := old(persons)[person].(names := names)]
      ensures Selects(DisplayNames(old(Tables()), old(Tables()).Contact(PersonKey(person))), names)
    {
      var displayNames := DisplayNamesOf(person);
      names := SelectNames(displayNames);
      persons := persons[person := persons[person].(names := names)];
    }

    /** The union, its log row, and both identities at the survivor. */
    method JoinContacts(a: IdentityId, b: IdentityId, rule: string, decisionKind: string, newPerson: PersonId)
      returns (person: PersonId)
      requires Valid() && newPerson !in persons && a in identities && b in identities
      modifies this`identities, this`persons, this`mergeLog
      ensures var s := old(Tables());
        && person == Survivor(s, a, b, newPerson)
        && identities == Merged(s, a, b, rule, decisionKind, newPerson, Names("", None)).identities
        && persons.Keys == s.persons.Keys + {person}
        && (forall p, names :: p in persons ==>
             MergedPerson(s, a, b, newPerson, names, p) ==
             if p == person then persons[p].(names := names) else persons[p])
        && mergeLog == s.log + [NewRow(s, a, b, rule, decisionKind, newPerson)]
    {
      hide Sound, Merged, Joined, Moved;
      ghost var s := Tables();
      var absorbed, moved;
      person, absorbed, moved := Converge(a, b, newPerson);
      var row := MergeRow(a, b, person, absorbed, moved, persons[person].names, rule, decisionKind, false);
      mergeLog := mergeLog + [row];
      identities := identities[a := identities[a].(personId := Some(person))];
      identities := identities[b := identities[b].(personId := Some(person))];
      MergedIdentities(s, a, b, rule, decisionKind, newPerson, identities);
    }

    /** apply_merge between reading the two contact keys and relocating the side tables. */
    method MergeTables(a: IdentityId, b: IdentityId, rule: string, decisionKind: string, newPerson: PersonId)
      returns (person: PersonId)
      requires Valid() && newPerson !in persons && a in identities && b in identities
      modifies this`identities, this`persons, this`mergeLog
      ensures Valid()
      ensures person == Survivor(old(Tables()), a, b, newPerson) && person in persons
      ensures Tables() == Merged(old(Tables()), a, b, rule, decisionKind, newPerson, persons[person].names)
      ensures Selects(DisplayNames(old(Tables()), Joined(old(Tables()), a, b)), persons[person].names)
    {
      hide Sound, Selects, Merged, DisplayNames, Joined, Moved, MergedPerson, NewRow, Survivor;
      ghost var s := Tables();
      person := JoinContacts(a, b, rule, decisionKind, newPerson);
      MergedContactIsJoined(s, a, b, rule, decisionKind, newPerson, Tables());
      var names := RecomputeNames(person);
      MergedPersons(s, a, b, rule, decisionKind, newPerson, names, Tables());
      MergeKeepsSound(s, a, b, rule, decisionKind, newPerson, names);
    }

    /**
      apply_merge. A blank rule, an unknown decision path or a missing identity raises before anything
      is written; otherwise the tables are exactly Merged, with names selected from the whole new
      contact, and every side table has relocated both contacts' rows to the survivor.
     */
    method ApplyMerge(a: IdentityId, b: IdentityId, rule: string, decisionKind: string, newPerson: PersonId)
      returns (r: Result<PersonId, MergeError>)
      requires Valid() && newPerson !in persons
      modifies this
      ensures Valid()
      ensures r == Err(InvalidProvenance) <==> IsBlank(rule) || decisionKind !in {"automatic", "review", "manual"}
      ensures r != Err(InvalidProvenance) ==>
        (r == Err(UnknownIdentity) <==> a !in old(identities) || b !in old(identities))
      ensures r.Err? ==> Tables() == old(Tables())
      ensures r.Ok? ==> a in old(identities) && b in old(identities)
      ensures r.Ok? ==> IsMerge(old(Tables()), Tables(), a, b, rule, decisionKind, newPerson, r.value)
      ensures FollowLog(old(Tables()), old(SideTables()), Tables(), SideTables())
      ensures r.Ok? ==> r.value == Survivor(old(Tables()), a, b, newPerson) && r.value in persons
      ensures r.Ok? ==> Tables() == Merged(old(Tables()), a, b, rule, decisionKind, newPerson, persons[r.value].names)
    {
      if !ValidProvenance(rule, decisionKind) {
        return Err(InvalidProvenance);
      }
      if a !in identities || b !in identities {
        return Err(UnknownIdentity);
      }
      hide Sound, Relocated, Selects, Merged, DisplayNames, Survivor, IsMerge, Together, Joined, FollowLog;
      ghost var s, x := Tables(), SideTables();
      TogetherIsJoined(s, a, b);
      var keyA, keyB := KeyOf(a), KeyOf(b);
      var person := MergeTables(a, b, rule, decisionKind, newPerson);
      MergedIsMerge(s, a, b, rule, decisionKind, newPerson, persons[person].names);
      RelocateSideTables({keyA, keyB} - {PersonKey(person)}, PersonKey(person));
      MergeFollows(s, x, Tables(), SideTables(), a, b, rule, decisionKind, newPerson, person);
      r := Ok(person);
    }

    // -------------------------------------------------------------- undoing

    /**
      undo_merge. It refuses exactly when the row does not exist or a later row has the same survivor,
      and then writes nothing; otherwise it writes exactly the inverse step of the row.
     */
    method UndoMerge(k: nat) returns (r: Result<(), UndoError>)
      requires Valid()
      modifies this`identities, this`persons, this`mergeLog, this`candidates
      ensures Valid()
      ensures r == Err(NoSuchRow) <==> k >= |old(mergeLog)|
      ensures r == Err(LaterMerge) <==>
        exists m :: k < m < |old(mergeLog)| && old(mergeLog)[m].survivor == old(mergeLog)[k].survivor
      ensures r.Err? ==> Tables() == old(Tables())
      ensures r.Ok? ==> IsUndo(old(Tables()), Tables(), k)
      ensures r.Err? <==> Runs.UndoMerge(old(Tables()), k).Err?
      ensures r.Ok? ==> Tables() == Runs.UndoMerge(old(Tables()), k).value
    {
      if k >= |mergeLog| {
        return Err(NoSuchRow);
      }
      var row := mergeLog[k];
      hide Sound, Unmerged, IsUndo;
      UndoneRowExists(Tables(), k);
      if exists m :: k < m < |mergeLog| && mergeLog[m].survivor == row.survivor {
        return Err(LaterMerge);
      }
      UndoKeepsSound(Tables(), k);
      Invert(k);
      r := Ok(());
    }

    /** The last update of undo_merge. */
    method ResetCandidates(row: MergeRow)
      modifies this`candidates
      ensures |candidates| == |old(candidates)|
      ensures forall c :: 0 <= c < |candidates| ==> CandidateUndone(row, old(candidates)[c], candidates[c])
      ensures forall c :: 0 <= c < |candidates| ==> candidates[c] == Reopened(old(candidates)[c], row)
    {
      for c := 0 to |candidates|
        invariant |candidates| == |old(candidates)|
        invariant forall d :: 0 <= d < c ==> CandidateUndone(row, old(candidates)[d], candidates[d])
        invariant forall d :: 0 <= d < c ==> candidates[d] == Reopened(old(candidates)[d], row)
        invariant candidates[c..] == old(candidates)[c..]
      {
        var candidate := candidates[c];
        assert candidate == candidates[c..][0] && candidates[c + 1..] == candidates[c..][1..];
        if candidate.a == row.a && candidate.b == row.b && candidate.status == Confirmed {
          var status := if candidate.rule == "linkedin_same_channel_dedupe" then Retired else Pending;
          candidates := candidates[c := candidate.(status := status)];
        }
      }
    }

    /** The statements of undo_merge after its gate. */
    method Invert(k: nat)
      requires k < |mergeLog| && mergeLog[k].survivor in persons
      requires mergeLog[k].absorbed.Some? ==> mergeLog[k].absorbed.value in persons
      modifies this`identities, this`persons, this`mergeLog, this`candidates
      ensures Tables() == Unmerged(old(Tables()), k) && IsUndo(old(Tables()), Tables(), k)
    {
      hide Unmerged, Reopened, IsUndo, CandidateUndone;
      var row := mergeLog[k];
      if row.moved != {} {
        identities := map i | i in identities ::
          if i in row.moved then identities[i].(personId := row.absorbed) else identities[i];
      }
      if row.absorbed.Some? {
        persons := persons[row.absorbed.value := persons[row.absorbed.value].(mergedInto := None)];
      }
      persons := persons[row.survivor := persons[row.survivor].(names := row.prevNames)];
      mergeLog := mergeLog[k := row.(reversed := true)];
      ResetCandidates(row);
      UnmergedTables(old(Tables()), k, Tables());
      UnmergedIsUndo(old(Tables()), k);
    }

    // -------------------------------------------------------------- safety checks and proposals

    /** cluster_size_after_merge: the set grown over both sides is what a merge would join. */
    method ClusterSizeAfterMerge(a: IdentityId, b: IdentityId) returns (n: nat)
      requires a in identities && b in identities
      ensures n == |Together(Tables(), a, b)|
    {
      var ids: set<IdentityId> := {};
      var sides := [a, b];
      for j := 0 to 2
        invariant ids == (if j > 0 then Tables().Contact(Tables().KeyOf(a)) else {})
          + (if j > 1 then Tables().Contact(Tables().KeyOf(b)) else {})
      {
        var p := identities[sides[j]].personId;
        ids := ids + if p == None then {sides[j]} else set i | i in identities && identities[i].personId == p;
      }
      TogetherIsJoined(Tables(), a, b);
      n := |ids|;
    }

    /** Every display name already in identity i's contact. */
    method ContactDisplayNames(i: IdentityId) returns (names: seq<Option<string>>)
      requires i in identities
      ensures Elements(names) == DisplayNames(Tables(), Tables().Contact(Tables().KeyOf(i)))
    {
      match identities[i].personId
      case Some(p) => names := DisplayNamesOf(p);
      case None =>
        assert Tables().Contact(IdentityKey(i)) == {i};
        names := [identities[i].displayName];
    }

    /** cluster_names_contradict: any name of one contact against any name of the other. */
    method ClusterNamesContradict(a: IdentityId, b: IdentityId) returns (r: bool)
      requires a in identities && b in identities
      ensures r == NamesClash(Tables(), a, b)
    {
      ClashIff(Tables(), a, b);
      var namesA := ContactDisplayNames(a);
      var namesB := ContactDisplayNames(b);
      r := exists x, y :: x in namesA && y in namesB && NamesContradict(x, y);
      NamesOfContacts(Tables(), a, b, Elements(namesA), Elements(namesB));
      assert forall x :: x in namesA <==> x in Elements(namesA);
      assert forall y :: y in namesB <==> y in Elements(namesB);
    }

    /** has_existing_candidate: the pair in either order, whatever the status. */
    method HasExistingCandidate(a: IdentityId, b: IdentityId) returns (r: bool)
      ensures r == Effects.Named(candidates, a, b)
    {
      NamedIff(candidates, a, b);
      for c := 0 to |candidates|
        invariant forall d :: 0 <= d < c ==>
          !((candidates[d].a == a && candidates[d].b == b) || (candidates[d].a == b && candidates[d].b == a))
      {
        var row := candidates[c];
        if (row.a == a && row.b == b) || (row.a == b && row.b == a) {
          return true;
        }
      }
      r := false;
    }

    /** The names row of a person, for stating what a merge chose. */
    ghost function NamesOf(p: PersonId): Names
      reads this
    {
      if p in persons then persons[p].names else Names("", None)
    }

    /** Blocked, contradicting or too large pairs wait for review. */
    method DecideStatus(a: IdentityId, b: IdentityId, blocked: bool) returns (status: Status)
      requires a in identities && b in identities
      ensures status == AutomaticStatus(Tables(), a, b, blocked)
      ensures status ==
        if blocked || NamesClash(Tables(), a, b) || |Together(Tables(), a, b)| > 8 then Pending else Confirmed
    {
      hide ContactsContradict, Joined, NamesClash, Together;
      ClashIff(Tables(), a, b);
      TogetherIsJoined(Tables(), a, b);
      if blocked {
        return Pending;
      }
      var contradict := ClusterNamesContradict(a, b);
      if contradict {
        return Pending;
      }
      var size := ClusterSizeAfterMerge(a, b);
      status := if size > MAX_CLUSTER_SIZE then Pending else Confirmed;
    }

    /** _propose_and_maybe_confirm: true exactly when a candidate row was written. */
    method ProposeAndMaybeConfirm(a: IdentityId, b: IdentityId, rule: string, blocked: bool, newPerson: PersonId)
      returns (written: bool)
      requires Valid() && newPerson !in persons && a in identities && b in identities && !IsBlank(rule)
      modifies this
      ensures Valid()
      ensures written <==> !Effects.Named(old(candidates), a, b)
      ensures IsProposal(old(Tables()), Tables(), a, b, rule, blocked, newPerson)
      ensures FollowLog(old(Tables()), old(SideTables()), Tables(), SideTables())
      ensures Tables() ==
        Proposed(old(Tables()), a, b, rule, blocked, newPerson, NamesOf(Survivor(old(Tables()), a, b, newPerson)))
    {
      hide Sound, Relocated, Selects, Merged, AutomaticStatus, IsMerge, IsProposal, HasCandidate, Effects.Named;
      ghost var s := Tables();
      NamedIff(candidates, a, b);
      ghost var names := NamesOf(Survivor(s, a, b, newPerson));
      ProposedIsProposal(s, a, b, rule, blocked, newPerson, names);
      var existing := HasExistingCandidate(a, b);
      if existing {
        return false;
      }
      var status := DecideStatus(a, b, blocked);
      candidates := candidates + [Candidate(a, b, rule, status)];
      SameTablesKeepSound(s, Tables());
      if status == Confirmed {
        ghost var q := Tables();
        var r := ApplyMerge(a, b, rule, "automatic", newPerson);
        SameIdentitiesFollow(s, q, old(SideTables()), Tables(), SideTables());
        assert r.Err? ==> r.error == InvalidProvenance || r.error == UnknownIdentity;
      }
      ProposedIsProposal(s, a, b, rule, blocked, newPerson, NamesOf(Survivor(s, a, b, newPerson)));
      written := true;
    }

    /** What the queueing rules do with a pair: true exactly when a pending row was written. */
    method QueueForReview(a: IdentityId, b: IdentityId, rule: string) returns (written: bool)
      requires Valid()
      modifies this`candidates
      ensures Valid()
      ensures written <==> !Effects.Named(old(candidates), a, b)
      ensures if written then IsAppended(old(Tables()), Tables(), Candidate(a, b, rule, Pending))
              else Tables() == old(Tables())
      ensures Tables() ==
        if written then Appended(old(Tables()), Candidate(a, b, rule, Pending)) else old(Tables())
    {
      NamedIff(candidates, a, b);
      var existing := HasExistingCandidate(a, b);
      if !existing {
        candidates := candidates + [Candidate(a, b, rule, Pending)];
      }
      SameTablesKeepSound(old(Tables()), Tables());
      written := !existing;
    }

    // -------------------------------------------------------------- the review routes

    /** The confirm route: true exactly when this request's claim and merge went through. */
    method ConfirmCandidate(c: nat, newPerson: PersonId) returns (confirmed: bool)
      requires Valid() && newPerson !in persons
      modifies this
      ensures Valid()
      ensures !confirmed ==> Tables() == old(Tables())
      ensures confirmed <==>
        && c < |old(candidates)| && old(candidates)[c].status == Pending && !IsBlank(old(candidates)[c].rule)
        && old(candidates)[c].a in old(identities) && old(candidates)[c].b in old(identities)
      ensures confirmed ==> IsConfirmation(old(Tables()), Tables(), c, newPerson)
      ensures FollowLog(old(Tables()), old(SideTables()), Tables(), SideTables())
      ensures exists names :: Tables() == ConfirmedByReview(old(Tables()), c, newPerson, names)
    {
      ghost var s := Tables();
      hide Sound, Relocated, Selects, IsMerge, IsConfirmation, Merged;
      if c >= |candidates| || candidates[c].status != Pending {
        assert s == ConfirmedByReview(s, c, newPerson, Names("", None));
        return false;
      }
      var row := candidates[c];
      candidates := candidates[c := row.(status := Confirmed)];
      ghost var claimed := Tables();
      SameTablesKeepSound(s, claimed);
      var r := ApplyMerge(row.a, row.b, row.rule, "review", newPerson);
      if r.Err? {
        assert r.error == InvalidProvenance || r.error == UnknownIdentity;
        candidates := candidates[c := row];  // the transaction is rolled back
        assert candidates == claimed.candidates[c := row] == s.candidates;
        assert Tables() == ConfirmedByReview(s, c, newPerson, Names("", None));
        return false;
      }
      SameIdentitiesFollow(s, claimed, old(SideTables()), Tables(), SideTables());
      assert Tables() == ConfirmedByReview(s, c, newPerson, persons[r.value].names);
      ConfirmedIsConfirmation(s, c, newPerson, persons[r.value].names);
      confirmed := true;
    }

    method RejectCandidate(c: nat)
      requires Valid()
      modifies this`candidates
      ensures Valid()
      ensures Tables() == RejectedByReview(old(Tables()), c)
      ensures identities == old(identities) && persons == old(persons) && mergeLog == old(mergeLog)
      ensures c < |old(candidates)| && old(candidates)[c].status == Pending ==>
        candidates == old(candidates)[c := old(candidates)[c].(status := Rejected)]
      ensures !(c < |old(candidates)| && old(candidates)[c].status == Pending) ==> candidates == old(candidates)
    {
      if c < |candidates| && candidates[c].status == Pending {
        candidates := candidates[c := candidates[c].(status := Rejected)];
      }
      SameTablesKeepSound(old(Tables()), Tables());
    }

    // -------------------------------------------------------------- the contact panel

    /** _resolve_contact_key: the contact that shows the identity the key names, or else the key as a person's. */
    method ResolveContactKey(key: ContactKey) returns (r: ContactKey)
      ensures key.IdentityKey? && key.identity in identities ==> key.identity in Tables().Contact(r)
      ensures key.PersonKey? || key.identity !in identities ==> r == key
    {
      r := if key.IdentityKey? && key.identity in identities then KeyOf(key.identity) else key;
    }

    /** link_contact: None when the key names no contact, else what apply_merge did. */
    method LinkContact(key: ContactKey, other: IdentityId, newPerson: PersonId)
      returns (r: Option<Result<PersonId, MergeError>>)
      requires Valid() && newPerson !in persons
      modifies this
      ensures Valid()
      ensures r == None <==> old(Tables()).Contact(Resolve(old(Tables()), key)) == {}
      ensures r == None ==> Tables() == old(Tables())
      ensures r.Some? ==> (r.value.Ok? <==> other in old(identities))
      ensures r.Some? && r.value.Ok? ==> exists representative ::
        && representative in old(identities) && representative in old(Tables()).Contact(Resolve(old(Tables()), key))
        && IsMerge(old(Tables()), Tables(), representative, other, "manual_link", "manual", newPerson, r.value.value)
      ensures r.Some? && r.value.Err? ==> Tables() == old(Tables())
      ensures FollowLog(old(Tables()), old(SideTables()), Tables(), SideTables())
      ensures r.Some? ==> exists representative, names ::
        && representative in old(Tables()).Contact(Resolve(old(Tables()), key))
        && Tables() == Committed(old(Tables()),
             Runs.ApplyMerge(old(Tables()), representative, other, "manual_link", "manual", newPerson, names))
    {
      ghost var s := Tables();
      hide Sound, Relocated, Selects, Merged, IsMerge;
      var contact := ResolveContactKey(key);
      ResolveIff(s, key, contact);
      var rows := set i | i in identities && KeyOf(i) == contact;
      assert rows == s.Contact(contact);
      if rows == {} {
        return None;
      }
      var representative :| representative in rows;
      var merged := ApplyMerge(representative, other, "manual_link", "manual", newPerson);
      ghost var names := if merged.Ok? then persons[merged.value].names else Names("", None);
      assert ValidProvenance("manual_link", "manual") by {
        assert !IsSpace("manual_link"[0]);
      }
      assert merged.Err? ==> merged.error == UnknownIdentity;
      assert Tables() == Committed(s,
        Runs.ApplyMerge(s, representative, other, "manual_link", "manual", newPerson, names));
      r := Some(merged);
    }

    /** update_contact_name: every identity of the contact, and no other, gets the name. */
    method UpdateContactName(key: ContactKey, name: string)
      requires Valid()
      modifies this`identities
      ensures Valid() && Tables() == ContactRenamed(old(Tables()), key, name)
      ensures exists contact ::
        StandsFor(old(Tables()), key, contact) && IsRename(old(Tables()), Tables(), contact, name)
    {
      hide Sound;
      ghost var s := Tables();
      var contact := ResolveContactKey(key);
      ResolveIff(s, key, contact);
      RenamedIsRename(s, key, name);
      hide StandsFor, IsRename;
      identities := map i | i in identities ::
        if KeyOf(i) == contact then WithName(identities[i], name) else identities[i];
      SameTablesKeepSound(s, Tables());
    }

    /** add_contact_handle, once the raw input has been read as a channel and a handle. */
    method AddContactHandle(key: ContactKey, channel: string, handle: string, newIdentity: IdentityId,
                            newPerson: PersonId)
      returns (added: bool)
      requires Valid() && newPerson !in persons && newIdentity !in identities
      modifies this`identities, this`persons
      ensures Valid()
      ensures added <==> (
        && old(Tables()).Contact(Resolve(old(Tables()), key)) != {}
        && forall i :: i in old(identities) ==>
          old(identities)[i].channel != channel || old(identities)[i].handle != handle)
      ensures !added ==> Tables() == old(Tables())
      ensures added ==> exists representative ::
        && representative in old(Tables()).Contact(Resolve(old(Tables()), key))
        && newIdentity in identities && representative in old(identities)
        && IsHandleAdded(old(Tables()), Tables(), representative, newIdentity, channel, handle, newPerson)
        && Tables() == AddedHandle(old(Tables()), representative, newIdentity, channel, handle, newPerson)
    {
      ghost var s := Tables();
      var contact := ResolveContactKey(key);
      ResolveIff(s, key, contact);
      if exists i :: i in identities && identities[i].channel == channel && identities[i].handle == handle {
        return false;
      }
      var rows := set i | i in identities && KeyOf(i) == contact;
      assert rows == s.Contact(contact);
      if rows == {} {
        return false;
      }
      var representative :| representative in rows;
      AddHandleKeepsSound(s, representative, newIdentity, channel, handle, newPerson);
      var person := identities[representative].personId;
      if person == None {
        var name := identities[representative].displayName;
        persons := persons[newPerson := Person(Names(if name.Some? then name.value else "", None), None)];
        person := Some(newPerson);
        identities := identities[representative := identities[representative].(personId := person)];
      }
      identities := identities[newIdentity := Identity(channel, handle, None, person, false)];
      assert Tables() == AddedHandle(s, representative, newIdentity, channel, handle, newPerson);
      AddedIsHandleAdded(s, representative, newIdentity, channel, handle, newPerson);
      added := true;
    }

    function KeyOf(i: IdentityId): ContactKey
      requires i in identities
      reads this
    {
      match identities[i].personId
      case Some(p) => PersonKey(p)
      case None => IdentityKey(i)
    }
  }

  lemma MergedIdentities(s: Store, a: IdentityId, b: IdentityId, rule: string, kind: string, newPerson: PersonId,
                         after: map<IdentityId, Identity>)
    requires a in s.identities && b in s.identities
    requires after.Keys == s.identities.Keys
    requires forall i :: i in s.identities ==>
      after[i] == (if i == a || i == b || (Absorbed(s, a, b).Some? && s.identities[i].personId == Absorbed(s, a, b))
                   then s.identities[i].(personId := Some(Survivor(s, a, b, newPerson))) else s.identities[i])
    ensures after == Merged(s, a, b, rule, kind, newPerson, Names("", None)).identities
  {
    forall i | i in s.identities
      ensures after[i] ==
        if i in Joined(s, a, b) then s.identities[i].(personId := Some(Survivor(s, a, b, newPerson)))
        else s.identities[i]
    {
      assert i in s.Contact(s.KeyOf(i));
    }
  }

  lemma MergedPersons(s: Store, a: IdentityId, b: IdentityId, rule: string, kind: string, newPerson: PersonId,
                      names: Names, t: Store)
    requires a in s.identities && b in s.identities
    requires t.identities == Merged(s, a, b, rule, kind, newPerson, Names("", None)).identities
    requires t.persons.Keys == s.persons.Keys + {Survivor(s, a, b, newPerson)}
    requires forall p :: p in t.persons ==> t.persons[p] == MergedPerson(s, a, b, newPerson, names, p)
    requires t.log == s.log + [NewRow(s, a, b, rule, kind, newPerson)] && t.candidates == s.candidates
    ensures t == Merged(s, a, b, rule, kind, newPerson, names)
  {
    assert t.persons == Merged(s, a, b, rule, kind, newPerson, names).persons;
  }

  lemma UndoneRowExists(s: Store, k: nat)
    requires Sound(s) && k < |s.log|
    ensures s.log[k].survivor in s.persons
    ensures s.log[k].absorbed.Some? ==> s.log[k].absorbed.value in s.persons
  {
    assert RowReferences(s, s.log[k]);
  }

  lemma UnmergedTables(s: Store, k: nat, t: Store)
    requires k < |s.log| && t.identities.Keys == s.identities.Keys && t.persons.Keys == s.persons.Keys
    requires forall i :: i in s.identities ==>
      t.identities[i] ==
      if i in s.log[k].moved then s.identities[i].(personId := s.log[k].absorbed) else s.identities[i]
    requires forall p :: p in s.persons ==> t.persons[p] == UnmergedPerson(s.log[k], p, s.persons[p])
    requires t.log == s.log[k := s.log[k].(reversed := true)] && |t.candidates| == |s.candidates|
    requires forall c :: 0 <= c < |s.candidates| ==> t.candidates[c] == Reopened(s.candidates[c], s.log[k])
    ensures t == Unmerged(s, k)
  {
    var u := Unmerged(s, k);
    assert t.identities == u.identities && t.persons == u.persons && t.candidates == u.candidates;
  }

  lemma MergedContactIsJoined(s: Store, a: IdentityId, b: IdentityId, rule: string, kind: string, newPerson: PersonId,
                              t: Store)
    requires Sound(s) && a in s.identities && b in s.identities && newPerson !in s.persons
    requires t.identities == Merged(s, a, b, rule, kind, newPerson, Names("", None)).identities
    ensures t.Contact(PersonKey(Survivor(s, a, b, newPerson))) == Joined(s, a, b)
    ensures DisplayNames(t, Joined(s, a, b)) == DisplayNames(s, Joined(s, a, b))
  {
    var survivor := PersonKey(Survivor(s, a, b, newPerson));
    assert s.Contact(survivor) <= Joined(s, a, b) by {
      assert survivor == s.KeyOf(a) || survivor == s.KeyOf(b) || s.Contact(survivor) == {};
    }
    forall i | i in Joined(s, a, b) ensures t.identities[i].displayName == s.identities[i].displayName {
    }
  }
}
