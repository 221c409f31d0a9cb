/**
  What each operation of the store writes, row by row and column by column: the statements of the
  adapters read as relations between the tables before and after.
 */
module Effects {
  import opened Text
  import opened Wrappers
  import opened StoreModel
  import opened SafetyChecks
  import opened Runs

  // ---------------------------------------------------------------- merging

  /** i is shown with a or with b: it is one of them, or at the person of one of them. */
  ghost predicate InEither(s: Store, a: IdentityId, b: IdentityId, i: IdentityId)
    requires a in s.identities && b in s.identities && i in s.identities
  {
    || i == a || i == b
    || (s.identities[i].personId.Some?
        && (|| s.identities[i].personId == s.identities[a].personId
            || s.identities[i].personId == s.identities[b].personId))
  }

  /** a's person stays, else b's, else there is a new one. */
  ghost predicate IsSurvivor(s: Store, a: IdentityId, b: IdentityId, newPerson: PersonId, person: PersonId)
    requires a in s.identities && b in s.identities
  {
    var (pa, pb) := (s.identities[a].personId, s.identities[b].personId);
    && (pa.Some? ==> person == pa.value)
    && (pa.None? && pb.Some? ==> person == pb.value)
    && (pa.None? && pb.None? ==> person == newPerson)
  }

  /** The names a person row has, or those of the row that is about to be inserted. */
  ghost function NamesBefore(s: Store, p: PersonId): Names {
    if p in s.persons then s.persons[p].names else Names("", None)
  }

  /** The log row says who was merged, who survived and who was absorbed, who moved, and by what decision. */
  ghost predicate Records(s: Store, row: MergeRow, a: IdentityId, b: IdentityId, rule: string, kind: string,
                          person: PersonId)
    requires a in s.identities && b in s.identities
  {
    var (pa, pb) := (s.identities[a].personId, s.identities[b].personId);
    && row.a == a && row.b == b && row.rule == rule && row.decisionKind == kind && !row.reversed
    && row.survivor == person && row.prevNames == NamesBefore(s, person)
    && row.absorbed == (if pa.Some? && pb.Some? && pa != pb then pb else None)
    && (forall i :: i in row.moved <==>
          i in s.identities && InEither(s, a, b, i) && s.identities[i].personId != Some(person))
  }

  /** Everybody shown with a or b is at the surviving person, an absorbed one forwards to it, and a row is logged. */
  ghost predicate IsMerge(s: Store, t: Store, a: IdentityId, b: IdentityId, rule: string, kind: string,
                          newPerson: PersonId, person: PersonId)
    requires a in s.identities && b in s.identities
  {
    var (pa, pb) := (s.identities[a].personId, s.identities[b].personId);
    && IsSurvivor(s, a, b, newPerson, person)
    && t.identities.Keys == s.identities.Keys
    && (forall i :: i in s.identities ==>
          t.identities[i] ==
          if InEither(s, a, b, i) then s.identities[i].(personId := Some(person)) else s.identities[i])
    && t.persons.Keys == s.persons.Keys + {person}
    && (forall p :: p in s.persons && p != person ==>
          t.persons[p] == if pa.Some? && pb == Some(p) then s.persons[p].(mergedInto := Some(person)) else s.persons[p])
    && t.persons[person].mergedInto == (if person in s.persons then s.persons[person].mergedInto else None)
    && |t.log| == |s.log| + 1 && t.log[..|s.log|] == s.log
    && Records(s, t.log[|s.log|], a, b, rule, kind, person)
    && t.candidates == s.candidates
  }

  lemma EitherIsJoined(s: Store, a: IdentityId, b: IdentityId, i: IdentityId)
    requires a in s.identities && b in s.identities && i in s.identities
    ensures InEither(s, a, b, i) <==> i in Joined(s, a, b)
  {
  }

  lemma MergedIsMerge(s: Store, a: IdentityId, b: IdentityId, rule: string, kind: string, newPerson: PersonId,
                      names: Names)
    requires a in s.identities && b in s.identities && newPerson !in s.persons
    ensures IsMerge(s, Merged(s, a, b, rule, kind, newPerson, names), a, b, rule, kind, newPerson,
                    Survivor(s, a, b, newPerson))
  {
    forall i | i in s.identities ensures InEither(s, a, b, i) <==> i in Joined(s, a, b) {
      EitherIsJoined(s, a, b, i);
    }
    hide InEither, Joined;
  }

  // ---------------------------------------------------------------- undoing

  /**
    A confirmed candidate of the row's pair, in the row's order, waits for review again, or is retired
    for good if its rule is; every other candidate stays as it is.
   */
  ghost predicate CandidateUndone(row: MergeRow, before: Candidate, after: Candidate) {
    && after.a == before.a && after.b == before.b && after.rule == before.rule
    && (before.a == row.a && before.b == row.b && before.status == Confirmed ==>
          after.status == if before.rule == "linkedin_same_channel_dedupe" then Retired else Pending)
    && (before.a != row.a || before.b != row.b || before.status != Confirmed ==> after == before)
  }

  /**
    The moved identities are at the absorbed person or at none, which is a root again; the survivor has
    its names back; the row is marked; its candidates are undone.
   */
  ghost predicate IsUndo(s: Store, t: Store, k: nat)
    requires k < |s.log|
  {
    var row := s.log[k];
    && t.identities.Keys == s.identities.Keys && t.persons.Keys == s.persons.Keys
    && (forall i :: i in s.identities ==>
          t.identities[i] == if i in row.moved then s.identities[i].(personId := row.absorbed) else s.identities[i])
    && (forall p :: p in s.persons ==>
          && t.persons[p].names == (if p == row.survivor then row.prevNames else s.persons[p].names)
          && t.persons[p].mergedInto == (if row.absorbed == Some(p) then None else s.persons[p].mergedInto))
    && |t.log| == |s.log| && t.log[k] == row.(reversed := true)
    && (forall j :: 0 <= j < |s.log| && j != k ==> t.log[j] == s.log[j])
    && |t.candidates| == |s.candidates|
    && (forall c :: 0 <= c < |s.candidates| ==> CandidateUndone(row, s.candidates[c], t.candidates[c]))
  }

  lemma UnmergedIsUndo(s: Store, k: nat)
    requires k < |s.log|
    ensures IsUndo(s, Unmerged(s, k), k)
  {
  }

  // ---------------------------------------------------------------- proposing

  ghost predicate Named(candidates: seq<Candidate>, a: IdentityId, b: IdentityId) {
    exists c :: 0 <= c < |candidates| && {candidates[c].a, candidates[c].b} == {a, b}
  }

  /** The set that merging a and b would show as one contact. */
  ghost function Together(s: Store, a: IdentityId, b: IdentityId): set<IdentityId>
    requires a in s.identities && b in s.identities
  {
    set i | i in s.identities && InEither(s, a, b, i)
  }

  /** An identity shown with a and one shown with b have names without a common word. */
  ghost predicate NamesClash(s: Store, a: IdentityId, b: IdentityId)
    requires a in s.identities && b in s.identities
  {
    exists i, j :: i in s.identities && j in s.identities && s.KeyOf(i) == s.KeyOf(a) && s.KeyOf(j) == s.KeyOf(b)
      && NamesContradict(s.identities[i].displayName, s.identities[j].displayName)
  }

  /** Only a candidate is written. */
  ghost predicate IsAppended(s: Store, t: Store, c: Candidate) {
    && t.identities == s.identities && t.persons == s.persons && t.log == s.log
    && t.candidates == s.candidates + [c]
  }

  /**
    A pair that has a candidate, in either order, is left alone. Otherwise one is written: pending, with
    nothing merged, if the pair is blocked, if names clash or if more than eight identities would come
    together; confirmed, with the merge, if none of this is so.
   */
  ghost predicate IsProposal(s: Store, t: Store, a: IdentityId, b: IdentityId, rule: string, blocked: bool,
                             newPerson: PersonId)
    requires a in s.identities && b in s.identities
  {
    && (Named(s.candidates, a, b) ==> t == s)
    && (!Named(s.candidates, a, b) && (blocked || NamesClash(s, a, b) || |Together(s, a, b)| > 8) ==>
          IsAppended(s, t, Candidate(a, b, rule, Pending)))
    && (!Named(s.candidates, a, b) && !blocked && !NamesClash(s, a, b) && |Together(s, a, b)| <= 8 ==>
          && t.candidates == s.candidates + [Candidate(a, b, rule, Confirmed)]
          && exists person :: IsMerge(s, t.(candidates := s.candidates), a, b, rule, "automatic", newPerson, person))
  }

  lemma NamedIff(candidates: seq<Candidate>, a: IdentityId, b: IdentityId)
    ensures Named(candidates, a, b) <==> HasCandidate(candidates, a, b)
  {
    forall x: IdentityId, y: IdentityId ensures {x, y} == {a, b} <==> (x == a && y == b) || (x == b && y == a) {
      if {x, y} == {a, b} {
        assert x in {a, b} && y in {a, b} && a in {x, y} && b in {x, y};
      }
    }
  }

  lemma ClashIff(s: Store, a: IdentityId, b: IdentityId)
    requires a in s.identities && b in s.identities
    ensures NamesClash(s, a, b) <==> ContactsContradict(s, a, b)
  {
    hide NamesContradict;
  }

  lemma TogetherIsJoined(s: Store, a: IdentityId, b: IdentityId)
    requires a in s.identities && b in s.identities
    ensures Together(s, a, b) == Joined(s, a, b)
  {
    forall i | i in s.identities ensures InEither(s, a, b, i) <==> i in Joined(s, a, b) {
      EitherIsJoined(s, a, b, i);
    }
  }

  lemma ProposedIsProposal(s: Store, a: IdentityId, b: IdentityId, rule: string, blocked: bool, newPerson: PersonId,
                           names: Names)
    requires a in s.identities && b in s.identities && newPerson !in s.persons
    ensures IsProposal(s, Proposed(s, a, b, rule, blocked, newPerson, names), a, b, rule, blocked, newPerson)
  {
    hide NamesClash, ContactsContradict, Together, Joined, Named, HasCandidate, IsMerge, Merged;
    NamedIff(s.candidates, a, b);
    ClashIff(s, a, b);
    TogetherIsJoined(s, a, b);
    MergedIsMerge(s, a, b, rule, "automatic", newPerson, names);
    SameTablesMerge(s, Appended(s, Candidate(a, b, rule, Confirmed)), a, b, rule, "automatic", newPerson, names);
    var t := Proposed(s, a, b, rule, blocked, newPerson, names);
    if !HasCandidate(s.candidates, a, b) && AutomaticStatus(s, a, b, blocked) == Confirmed {
      assert t.(candidates := s.candidates) == Merged(s, a, b, rule, "automatic", newPerson, names);
    }
  }

  lemma SameTablesMerge(s: Store, q: Store, a: IdentityId, b: IdentityId, rule: string, kind: string,
                        newPerson: PersonId, names: Names)
    requires a in s.identities && b in s.identities
    requires q.identities == s.identities && q.persons == s.persons && q.log == s.log
    ensures Merged(q, a, b, rule, kind, newPerson, names).(candidates := s.candidates) ==
      Merged(s, a, b, rule, kind, newPerson, names)
    ensures Merged(q, a, b, rule, kind, newPerson, names).candidates == q.candidates
  {
    assert Joined(q, a, b) == Joined(s, a, b);
    hide Joined;
  }

  // ---------------------------------------------------------------- reviewing

  /** The claimed row is confirmed and its pair merged by review. */
  ghost predicate IsConfirmation(s: Store, t: Store, c: nat, newPerson: PersonId)
    requires c < |s.candidates| && s.candidates[c].a in s.identities && s.candidates[c].b in s.identities
  {
    var row := s.candidates[c];
    && t.candidates == s.candidates[c := row.(status := Confirmed)]
    && exists person ::
         IsMerge(s, t.(candidates := s.candidates), row.a, row.b, row.rule, "review", newPerson, person)
  }

  lemma ConfirmedIsConfirmation(s: Store, c: nat, newPerson: PersonId, names: Names)
    requires newPerson !in s.persons && c < |s.candidates| && s.candidates[c].status == Pending
    ensures var (row, t) := (s.candidates[c], ConfirmedByReview(s, c, newPerson, names));
      if !IsBlank(row.rule) && row.a in s.identities && row.b in s.identities then IsConfirmation(s, t, c, newPerson)
      else t == s
  {
    var row := s.candidates[c];
    if !IsBlank(row.rule) && row.a in s.identities && row.b in s.identities {
      var claimed := s.(candidates := s.candidates[c := row.(status := Confirmed)]);
      MergedIsMerge(s, row.a, row.b, row.rule, "review", newPerson, names);
      SameTablesMerge(s, claimed, row.a, row.b, row.rule, "review", newPerson, names);
      hide IsMerge, Merged, IsBlank;
    }
  }

  // ---------------------------------------------------------------- the contact panel

  /**
    A new identity without a name is at the representative's person. If it had none, both are at a new
    person named as the representative is.
   */
  ghost predicate IsHandleAdded(s: Store, t: Store, rep: IdentityId, i: IdentityId, channel: string, handle: string,
                                newPerson: PersonId)
    requires rep in s.identities && i in t.identities
  {
    var (before, person) := (s.identities[rep], t.identities[i].personId);
    && t.identities.Keys == s.identities.Keys + {i}
    && t.identities[i] == Identity(channel, handle, None, person, false) && person.Some?
    && t.identities[rep] == before.(personId := person)
    && (forall j :: j in s.identities && j != rep ==> t.identities[j] == s.identities[j])
    && (before.personId.Some? ==> person == before.personId && t.persons == s.persons)
    && (before.personId.None? ==>
          && person == Some(newPerson) && t.persons.Keys == s.persons.Keys + {newPerson}
          && t.persons[newPerson].mergedInto == None && t.persons[newPerson].names.preferred == None
          && t.persons[newPerson].names.primary == (if before.displayName.Some? then before.displayName.value else "")
          && forall p :: p in s.persons ==> t.persons[p] == s.persons[p])
    && t.log == s.log && t.candidates == s.candidates
  }

  lemma AddedIsHandleAdded(s: Store, rep: IdentityId, i: IdentityId, channel: string, handle: string,
                           newPerson: PersonId)
    requires rep in s.identities && i !in s.identities && newPerson !in s.persons
    ensures i in AddedHandle(s, rep, i, channel, handle, newPerson).identities
    ensures IsHandleAdded(s, AddedHandle(s, rep, i, channel, handle, newPerson), rep, i, channel, handle, newPerson)
  {
  }

  /** Exactly the identities shown under the key have the name. */
  ghost predicate IsRename(s: Store, t: Store, key: ContactKey, name: string) {
    && t.identities.Keys == s.identities.Keys
    && (forall i :: i in s.identities ==>
          t.identities[i] ==
          if s.KeyOf(i) == key then s.identities[i].(displayName := Some(name)) else s.identities[i])
    && t.persons == s.persons && t.log == s.log && t.candidates == s.candidates
  }

  lemma RenamedIsRename(s: Store, key: ContactKey, name: string)
    ensures IsRename(s, ContactRenamed(s, key, name), Resolve(s, key), name)
  {
  }
}
