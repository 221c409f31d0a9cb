/**
  Everything that changes the store, as events, and runs of events in any order: what the adapters
  insert, the automatic and the queueing rules, the review routes, the contact panel, names and undo.
 */
module Runs {
  import opened Text
  import opened Wrappers
  import opened StoreModel
  import opened SafetyChecks

  /**
    One committed transaction. `newPerson` is the id the database would give a person row, `names`
    what naming chose, `representative` the row an unordered `limit 1` query returned.
   */
  datatype Event =
    | Arrive(i: IdentityId, record: Identity)
    | Merge(a: IdentityId, b: IdentityId, rule: string, decisionKind: string, newPerson: PersonId, names: Names)
    | Undo(row: nat)
    | LinkContact(key: ContactKey, representative: IdentityId, other: IdentityId, newPerson: PersonId, names: Names)
    | AddHandle(key: ContactKey, representative: IdentityId, i: IdentityId, channel: string, handle: string,
                newPerson: PersonId)
    | Propose(a: IdentityId, b: IdentityId, rule: string, blocked: bool, newPerson: PersonId, names: Names)
    | Queue(a: IdentityId, b: IdentityId, rule: string)
    | Confirm(c: nat, newPerson: PersonId, names: Names)
    | Reject(c: nat)
    | FillName(i: IdentityId, name: string)
    | RenameContact(key: ContactKey, name: string)

  // ---------------------------------------------------------------- single events

  /** apply_merge: a missing identity or an unattributed merge raises and nothing is written. */
  function ApplyMerge(s: Store, a: IdentityId, b: IdentityId, rule: string, decisionKind: string,
                      newPerson: PersonId, names: Names): Result<Store, MergeError>
  {
    if !ValidProvenance(rule, decisionKind) then Err(InvalidProvenance)
    else if a !in s.identities || b !in s.identities then Err(UnknownIdentity)
    else Ok(Merged(s, a, b, rule, decisionKind, newPerson, names))
  }

  function UndoMerge(s: Store, k: nat): Result<Store, UndoError> {
    if k >= |s.log| then Err(NoSuchRow)
    else if BuiltUpon(s.log, k) then Err(LaterMerge)
    else Ok(Unmerged(s, k))
  }

  /** A raised error rolls the transaction back. */
  function Committed<E>(s: Store, r: Result<Store, E>): Store {
    if r.Ok? then r.value else s
  }

  function Resolve(s: Store, key: ContactKey): ContactKey {
    if key.IdentityKey? && key.identity in s.identities then s.KeyOf(key.identity) else key
  }

  function AddedHandle(s: Store, representative: IdentityId, i: IdentityId, channel: string, handle: string,
                       newPerson: PersonId): Store
    requires representative in s.identities
  {
    var existing := s.identities[representative].personId;
    var p := if existing.Some? then existing.value else newPerson;
    var name := s.identities[representative].displayName;
    var primary := if name.Some? then name.value else "";
    s.(identities := s.identities[representative := s.identities[representative].(personId := Some(p))]
                                 [i := Identity(channel, handle, None, Some(p), false)],
       persons := if existing.Some? then s.persons else s.persons[p := Person(Names(primary, None), None)])
  }

  function Appended(s: Store, c: Candidate): Store {
    s.(candidates := s.candidates + [c])
  }

  /** _propose_and_maybe_confirm on two stored identities. */
  function Proposed(s: Store, a: IdentityId, b: IdentityId, rule: string, blocked: bool,
                    newPerson: PersonId, names: Names): Store
    requires a in s.identities && b in s.identities
  {
    if HasCandidate(s.candidates, a, b) then s
    else
      var status := AutomaticStatus(s, a, b, blocked);
      var queued := Appended(s, Candidate(a, b, rule, status));
      if status == Confirmed then Merged(queued, a, b, rule, "automatic", newPerson, names) else queued
  }

  /** The confirm route: claim the pending row, then merge its pair. */
  function ConfirmedByReview(s: Store, c: nat, newPerson: PersonId, names: Names): Store {
    if c < |s.candidates| && s.candidates[c].status == Pending then
      var claimed := s.(candidates := s.candidates[c := s.candidates[c].(status := Confirmed)]);
      var row := s.candidates[c];
      var merged := ApplyMerge(claimed, row.a, row.b, row.rule, "review", newPerson, names);
      if merged.Ok? then merged.value else s
    else s
  }

  function RejectedByReview(s: Store, c: nat): Store {
    if c < |s.candidates| && s.candidates[c].status == Pending then
      s.(candidates := s.candidates[c := s.candidates[c].(status := Rejected)])
    else s
  }

  function WithName(record: Identity, name: string): Identity {
    record.(displayName := Some(name))
  }

  /** on conflict do update set display_name = coalesce(identity.display_name, excluded.display_name) */
  function NameFilled(s: Store, i: IdentityId, name: string): Store {
    if i in s.identities && s.identities[i].displayName == None then
      s.(identities := s.identities[i := WithName(s.identities[i], name)])
    else s
  }

  /** update_contact_name: every identity of the contact gets the name. */
  function ContactRenamed(s: Store, key: ContactKey, name: string): Store {
    s.(identities := map i | i in s.identities ::
      if s.KeyOf(i) == Resolve(s, key) then WithName(s.identities[i], name) else s.identities[i])
  }

  // ---------------------------------------------------------------- runs

  /** The database's side of an event: new ids are new, a queried row is one that matches. */
  predicate Possible(s: Store, e: Event) {
    match e
    case Arrive(i, record) => i !in s.identities && record.personId == None
    case Merge(_, _, _, _, newPerson, _) => newPerson !in s.persons
    case Undo(_) => true
    case LinkContact(key, representative, _, newPerson, _) =>
      && newPerson !in s.persons
      && representative in s.Contact(Resolve(s, key))
    case AddHandle(key, representative, i, _, _, newPerson) =>
      && newPerson !in s.persons && i !in s.identities
      && representative in s.Contact(Resolve(s, key))
    case Propose(a, b, rule, _, newPerson, _) =>
      && newPerson !in s.persons && a in s.identities && b in s.identities && !IsBlank(rule)
    case Queue(a, b, _) => a in s.identities && b in s.identities
    case Confirm(_, newPerson, _) => newPerson !in s.persons
    case Reject(_) => true
    case FillName(_, _) => true
    case RenameContact(_, _) => true
  }

  function Step(s: Store, e: Event): Store
    requires Possible(s, e)
  {
    match e
    case Arrive(i, record) => s.(identities := s.identities[i := record])
    case Merge(a, b, rule, kind, newPerson, names) => Committed(s, ApplyMerge(s, a, b, rule, kind, newPerson, names))
    case Undo(k) => Committed(s, UndoMerge(s, k))
    case LinkContact(_, representative, other, newPerson, names) =>
      Committed(s, ApplyMerge(s, representative, other, "manual_link", "manual", newPerson, names))
    case AddHandle(_, representative, i, channel, handle, newPerson) =>
      AddedHandle(s, representative, i, channel, handle, newPerson)
    case Propose(a, b, rule, blocked, newPerson, names) => Proposed(s, a, b, rule, blocked, newPerson, names)
    case Queue(a, b, rule) =>
      if HasCandidate(s.candidates, a, b) then s else Appended(s, Candidate(a, b, rule, Pending))
    case Confirm(c, newPerson, names) => ConfirmedByReview(s, c, newPerson, names)
    case Reject(c) => RejectedByReview(s, c)
    case FillName(i, name) => NameFilled(s, i, name)
    case RenameContact(key, name) => ContactRenamed(s, key, name)
  }

  predicate IsRun(s: Store, run: seq<Event>)
    decreases |run|
  {
    run != [] ==> Possible(s, run[0]) && IsRun(Step(s, run[0]), run[1..])
  }

  function Final(s: Store, run: seq<Event>): Store
    requires IsRun(s, run)
    decreases |run|
  {
    if run == [] then s else Final(Step(s, run[0]), run[1..])
  }
}
