/**
  The tables of the identity-resolution store and, on plain values, what one merge and one undo
  do to them. The class in MergeStore.dfy runs the statements of adapters/resolution/merge.py and
  is proved to have exactly these effects; every theorem about runs is proved about these values.
 */
module StoreModel {
  import opened Text
  import opened Wrappers

  type IdentityId = nat
  type PersonId = nat

  /** coalesce(person_id, id). Identity ids and person ids are both random UUIDs, hence disjoint. */
  datatype ContactKey = IdentityKey(identity: IdentityId) | PersonKey(person: PersonId)

  datatype Identity = Identity(
    channel: string,
    handle: string,
    displayName: Option<string>,
    personId: Option<PersonId>,
    isSelf: bool)

  datatype Names = Names(primary: string, preferred: Option<string>)

  datatype Person = Person(names: Names, mergedInto: Option<PersonId>)

  /** A person row as `insert into person (primary_name) values ('')` leaves it. */
  const EMPTY_PERSON := Person(Names("", None), None)

  /**
    One merge_log row. Rows are kept in insertion order: merged_at is a clock_timestamp(), so a
    later row has a larger index. `moved` is an array in the table, only ever used as a set.
   */
  datatype MergeRow = MergeRow(
    a: IdentityId,
    b: IdentityId,
    survivor: PersonId,
    absorbed: Option<PersonId>,
    moved: set<IdentityId>,
    prevNames: Names,
    rule: string,
    decisionKind: string,
    reversed: bool)

  datatype Status = Pending | Confirmed | Rejected | Retired

  datatype Candidate = Candidate(a: IdentityId, b: IdentityId, rule: string, status: Status)

  datatype Store = Store(
    identities: map<IdentityId, Identity>,
    persons: map<PersonId, Person>,
    log: seq<MergeRow>,
    candidates: seq<Candidate>)
  {
    function KeyOf(i: IdentityId): ContactKey
      requires i in identities
    {
      match identities[i].personId
      case Some(p) => PersonKey(p)
      case None => IdentityKey(i)
    }

    /** The identities shown as one contact. */
    function Contact(k: ContactKey): set<IdentityId> {
      set i | i in identities && KeyOf(i) == k
    }

    /** A person that has not been folded into another one. */
    predicate IsRoot(p: PersonId) {
      p in persons && persons[p].mergedInto == None
    }
  }

  // ---------------------------------------------------------------- merging

  datatype MergeError = UnknownIdentity | InvalidProvenance

  const DECISION_KINDS := {"automatic", "review", "manual"}

  predicate ValidProvenance(rule: string, decisionKind: string) {
    !IsBlank(rule) && decisionKind in DECISION_KINDS
  }

  function Survivor(s: Store, a: IdentityId, b: IdentityId, newId: PersonId): PersonId
    requires a in s.identities && b in s.identities
  {
    match (s.identities[a].personId, s.identities[b].personId)
    case (Some(p), _) => p
    case (None, Some(q)) => q
    case (None, None) => newId
  }

  function Absorbed(s: Store, a: IdentityId, b: IdentityId): Option<PersonId>
    requires a in s.identities && b in s.identities
  {
    match (s.identities[a].personId, s.identities[b].personId)
    case (Some(p), Some(q)) => if p != q then Some(q) else None
    case _ => None
  }

  /** Everything either side's contact shows before the merge. */
  function Joined(s: Store, a: IdentityId, b: IdentityId): set<IdentityId>
    requires a in s.identities && b in s.identities
  {
    s.Contact(s.KeyOf(a)) + s.Contact(s.KeyOf(b))
  }

  /** The identities a merge re-points, which is what its log row records. */
  function Moved(s: Store, a: IdentityId, b: IdentityId, newId: PersonId): set<IdentityId>
    requires a in s.identities && b in s.identities
  {
    set i | i in Joined(s, a, b) && i in s.identities && s.identities[i].personId != Some(Survivor(s, a, b, newId))
  }

  function PersonRow(s: Store, p: PersonId): Person {
    if p in s.persons then s.persons[p] else EMPTY_PERSON
  }

  function NewRow(s: Store, a: IdentityId, b: IdentityId, rule: string, decisionKind: string, newId: PersonId): MergeRow
    requires a in s.identities && b in s.identities
  {
    MergeRow(a, b, Survivor(s, a, b, newId), Absorbed(s, a, b), Moved(s, a, b, newId),
             PersonRow(s, Survivor(s, a, b, newId)).names, rule, decisionKind, false)
  }

  function MergedPerson(s: Store, a: IdentityId, b: IdentityId, newId: PersonId, names: Names, p: PersonId): Person
    requires a in s.identities && b in s.identities
  {
    var survivor := Survivor(s, a, b, newId);
    if p == survivor then PersonRow(s, p).(names := names)
    else if Absorbed(s, a, b) == Some(p) then PersonRow(s, p).(mergedInto := Some(survivor))
    else PersonRow(s, p)
  }

  /**
    The store after merging a and b: both contacts' identities point at the survivor, an absorbed
    person forwards to it, and one row remembers what was there. `newId` is the id the database
    would give a new person row and `names` is what naming chose for the resulting cluster.
   */
  function Merged(s: Store, a: IdentityId, b: IdentityId, rule: string, decisionKind: string,
                  newId: PersonId, names: Names): Store
    requires a in s.identities && b in s.identities
  {
    var survivor := Survivor(s, a, b, newId);
    Store(
      map i | i in s.identities ::
        if i in Joined(s, a, b) then s.identities[i].(personId := Some(survivor)) else s.identities[i],
      map p | p in s.persons.Keys + {survivor} :: MergedPerson(s, a, b, newId, names, p),
      s.log + [NewRow(s, a, b, rule, decisionKind, newId)],
      s.candidates)
  }

  // ---------------------------------------------------------------- undoing

  datatype UndoError = NoSuchRow | LaterMerge

  const RETIRED_RULE := "linkedin_same_channel_dedupe"

  /** The gate: some later row, reversed or not, has the same survivor. */
  predicate BuiltUpon(log: seq<MergeRow>, k: nat)
    requires k < |log|
  {
    exists m :: k < m < |log| && log[m].survivor == log[k].survivor
  }

  predicate AcceptsUndo(s: Store, k: nat) {
    k < |s.log| && !BuiltUpon(s.log, k)
  }

  function Reopened(c: Candidate, row: MergeRow): Candidate {
    if c.a == row.a && c.b == row.b && c.status == Confirmed then
      c.(status := if c.rule == RETIRED_RULE then Retired else Pending)
    else c
  }

  function UnmergedPerson(row: MergeRow, p: PersonId, person: Person): Person {
    var reRooted := if row.absorbed == Some(p) then person.(mergedInto := None) else person;
    if p == row.survivor then reRooted.(names := row.prevNames) else reRooted
  }

  /** What undo_merge writes once its gate has let row k through. */
  function Unmerged(s: Store, k: nat): Store
    requires k < |s.log|
  {
    var row := s.log[k];
    Store(
      map i | i in s.identities ::
        if i in row.moved then s.identities[i].(personId := row.absorbed) else s.identities[i],
      map p | p in s.persons :: UnmergedPerson(row, p, s.persons[p]),
      s.log[k := row.(reversed := true)],
      seq(|s.candidates|, c requires 0 <= c < |s.candidates| => Reopened(s.candidates[c], row)))
  }
}
