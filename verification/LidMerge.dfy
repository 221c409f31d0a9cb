/**
  Folding a WhatsApp @lid identity into the phone-number identity of the same contact: the message
  and participant tables become their images under one substitution.
 */
module LidMerge {
  import opened Wrappers

  datatype IdentityRow = IdentityRow(channel: string, handle: string, displayName: Option<string>)

  /** A message_participant row; the whole row is the primary key. */
  datatype Participant = Participant(message: nat, identity: nat, role: string)

  function Substitute(lid: nat, pn: nat, i: nat): nat {
    if i == lid then pn else i
  }

  function Image(rows: set<Participant>, lid: nat, pn: nat): set<Participant> {
    set r | r in rows :: r.(identity := Substitute(lid, pn, r.identity))
  }

  /** The rows the guarded update re-points: those whose new key is still free. */
  function Movable(rows: set<Participant>, lid: nat, pn: nat): set<Participant> {
    set r | r in rows && r.identity == lid && r.(identity := pn) !in rows
  }

  /** The update and the delete, in the order they run. */
  function Repointed(rows: set<Participant>, lid: nat, pn: nat): set<Participant> {
    var updated := (rows - Movable(rows, lid, pn)) + set r | r in Movable(rows, lid, pn) :: r.(identity := pn);
    set r | r in updated && r.identity != lid
  }

  lemma TwoSteps(rows: set<Participant>, lid: nat, pn: nat, movable: set<Participant>, after: set<Participant>)
    requires movable == Movable(rows, lid, pn)
    requires after == set r | r in (rows - movable) + (set q | q in movable :: q.(identity := pn)) && r.identity != lid
    ensures after == Repointed(rows, lid, pn)
  {
  }

  /**
    Update then delete is the substitution exactly when the two identities differ or the identity
    takes part in nothing: given one handle twice, the script deletes its participant rows. The update
    itself never writes a primary key that exists, and never one key twice.
   */
  lemma RepointingIsSubstitutionIff(rows: set<Participant>, lid: nat, pn: nat)
    ensures forall r :: r in Movable(rows, lid, pn) ==> r.(identity := pn) !in rows
    ensures forall r, q :: r in Movable(rows, lid, pn) && q in Movable(rows, lid, pn) && r != q ==>
      r.(identity := pn) != q.(identity := pn)
    ensures Repointed(rows, lid, pn) == Image(rows, lid, pn) <==>
      lid != pn || forall r :: r in rows ==> r.identity != lid
  {
    var (moved, image) := (Repointed(rows, lid, pn), Image(rows, lid, pn));
    if lid != pn {
      forall r | r in image ensures r in moved {
        var q :| q in rows && r == q.(identity := Substitute(lid, pn, q.identity));
        if q.identity == lid && r !in rows {
          assert q in Movable(rows, lid, pn);
        }
      }
      forall r | r in moved ensures r in image {
        if r in rows {
          assert r == r.(identity := Substitute(lid, pn, r.identity));
        }
      }
      assert moved == image;
    } else {
      assert forall r :: r in rows ==> r.(identity := Substitute(lid, pn, r.identity)) == r;
      assert image == rows;
      assert Movable(rows, lid, pn) == {};
    }
  }

  const TWICE := "61400000000@s.whatsapp.net"

  /**
    One identity that takes part in message 7, and its handle given both as lid and as phone: its row is
    gone. The merge takes any two strings; that resolve_lids.js only writes pairs of a lid and the phone
    handle looked up for it is what keeps this from happening.
   */
  lemma OneHandleTwiceLosesRows()
    ensures var (ids, rows) := (map[0 := IdentityRow("whatsapp", TWICE, None)], {Participant(7, 0, "to")});
      At(ids, TWICE, 0) && Consistent(ids, map[], rows) && Repointed(rows, 0, 0) == {} && Image(rows, 0, 0) == rows
  {
    var p := Participant(7, 0, "to");
    assert p.(identity := Substitute(0, 0, 0)) == p;
    assert Movable({p}, 0, 0) == {};
  }

  /** No row is left under the lid, and every message keeps the roles it had. */
  lemma RepointingKeepsRoles(rows: set<Participant>, lid: nat, pn: nat, message: nat, role: string)
    requires lid != pn
    ensures forall r :: r in Repointed(rows, lid, pn) ==> r.identity != lid
    ensures (exists r :: r in rows && r.message == message && r.role == role) <==>
      (exists r :: r in Repointed(rows, lid, pn) && r.message == message && r.role == role)
  {
    RepointingIsSubstitutionIff(rows, lid, pn);
    if r :| r in rows && r.message == message && r.role == role {
      var q := r.(identity := Substitute(lid, pn, r.identity));
      assert q in Image(rows, lid, pn);
    }
  }

  predicate At(ids: map<nat, IdentityRow>, handle: string, i: nat) {
    i in ids && ids[i].channel == "whatsapp" && ids[i].handle == handle
  }

  /** identity is unique on (channel, handle). */
  ghost predicate Unique(ids: map<nat, IdentityRow>) {
    forall i, j :: i in ids && j in ids && i != j ==> ids[i].channel != ids[j].channel || ids[i].handle != ids[j].handle
  }

  /** Handles are unique, and message and participant rows refer to identities that exist. */
  ghost predicate Consistent(ids: map<nat, IdentityRow>, senders: map<nat, Option<nat>>, rows: set<Participant>) {
    && Unique(ids)
    && (forall m :: m in senders && senders[m].Some? ==> senders[m].value in ids)
    && (forall r :: r in rows ==> r.identity in ids)
  }

  lemma AbsorbingKeepsConsistent(ids: map<nat, IdentityRow>, senders: map<nat, Option<nat>>, rows: set<Participant>,
                                 lid: nat, pn: nat)
    requires Consistent(ids, senders, rows) && lid in ids && pn in ids
    requires lid == pn ==> !SentSomething(senders, lid)
    ensures Consistent(ids[pn := FilledName(ids, lid, pn)] - {lid}, SubstitutedSenders(senders, lid, pn),
      Repointed(rows, lid, pn))
  {
    var after := SubstitutedSenders(senders, lid, pn);
    assert forall m :: m in after && after[m].Some? ==> senders[m].Some? && after[m].value != lid;
    assert forall r :: r in Repointed(rows, lid, pn) ==> r.identity != lid && r.identity in ids;
  }

  /** After the update a message still refers to the lid only if the two identities are one. */
  lemma StillSending(senders: map<nat, Option<nat>>, lid: nat, pn: nat)
    ensures SentSomething(SubstitutedSenders(senders, lid, pn), lid) <==> lid == pn && SentSomething(senders, lid)
  {
    if lid == pn && SentSomething(senders, lid) {
      var m :| m in senders && senders[m] == Some(lid);
      assert SubstitutedSenders(senders, lid, pn)[m] == Some(lid);
    }
  }

  // ---------------------------------------------------------------- the merge, row by row

  /** The phone row takes the lid row's name only if it has none, and no other row changes; the lid row is gone. */
  ghost predicate LidRowFolded(before: map<nat, IdentityRow>, after: map<nat, IdentityRow>, lid: nat, pn: nat)
    requires lid in before && pn in before
  {
    && after.Keys == before.Keys - {lid}
    && (forall i :: i in after && i != pn ==> after[i] == before[i])
    && (pn in after ==>
          && after[pn].channel == before[pn].channel && after[pn].handle == before[pn].handle
          && after[pn].displayName ==
             if before[pn].displayName.Some? then before[pn].displayName else before[lid].displayName)
  }

  /** What the lid sent, the phone identity has sent. */
  ghost predicate LidSendersMoved(before: map<nat, Option<nat>>, after: map<nat, Option<nat>>, lid: nat, pn: nat) {
    && after.Keys == before.Keys
    && forall m :: m in before ==> after[m] == if before[m] == Some(lid) then Some(pn) else before[m]
  }

  /** The lid takes part in nothing; the phone identity in whatever either of them did, if they are two. */
  ghost predicate LidParticipantsMoved(before: set<Participant>, after: set<Participant>, lid: nat, pn: nat) {
    forall r: Participant :: r in after <==>
      && r.identity != lid
      && (r in before || (r.identity == pn && r.(identity := lid) in before))
  }

  lemma FoldingIs(ids: map<nat, IdentityRow>, lid: nat, pn: nat)
    requires lid in ids && pn in ids
    ensures LidRowFolded(ids, ids[pn := FilledName(ids, lid, pn)] - {lid}, lid, pn)
  {
  }

  lemma SendersMove(senders: map<nat, Option<nat>>, lid: nat, pn: nat)
    ensures LidSendersMoved(senders, SubstitutedSenders(senders, lid, pn), lid, pn)
  {
  }

  lemma ParticipantsMove(rows: set<Participant>, lid: nat, pn: nat)
    ensures LidParticipantsMoved(rows, Repointed(rows, lid, pn), lid, pn)
  {
    forall r: Participant | r.identity == pn && pn != lid && r.(identity := lid) in rows && r !in rows
      ensures r in Repointed(rows, lid, pn)
    {
      var q := r.(identity := lid);
      assert q in Movable(rows, lid, pn) && r == q.(identity := pn);
    }
  }

  datatype Outcome =
    | NothingToMerge
    | Renamed
    | Merged(messages: nat, participants: nat)
    | ForeignKeyViolation

  class ContactStore {
    var identities: map<nat, IdentityRow>
    var senders: map<nat, Option<nat>>   // message.from_identity_id
    var participants: set<Participant>
    var elsewhere: set<nat>              // identities that link_candidate, merge_log or fact refer to

    ghost predicate Valid()
      reads this
    {
      Consistent(identities, senders, participants)
    }

    constructor ()
      ensures Valid() && identities == map[] && senders == map[] && participants == {} && elsewhere == {}
    {
      identities, senders, participants, elsewhere := map[], map[], {}, {};
    }

    method Find(handle: string) returns (row: Option<nat>)
      ensures row.Some? ==> At(identities, handle, row.value)
      ensures row == None ==> forall i :: i in identities ==> !At(identities, handle, i)
    {
      var rows := set i | i in identities && At(identities, handle, i);
      assert forall i :: i in identities && At(identities, handle, i) ==> i in rows;
      if rows == {} {
        return None;
      }
      var i :| i in rows;
      row := Some(i);
    }

    /**
      merge. Without a lid row nothing happens; without a phone row the lid row is renamed in place;
      with both, names are filled but never overwritten, every sender and participant is substituted,
      and the lid row is gone. A row that something else still refers to cannot be deleted: the whole
      merge is rolled back.
     */
    method Merge(lidHandle: string, pnHandle: string) returns (outcome: Outcome)
      requires Valid()
      modifies this`identities, this`senders, this`participants
      ensures Valid()
      ensures outcome == NothingToMerge <==> forall i :: i in old(identities) ==>
        old(identities)[i].channel != "whatsapp" || old(identities)[i].handle != lidHandle
      ensures outcome == NothingToMerge || outcome == ForeignKeyViolation ==>
        identities == old(identities) && senders == old(senders) && participants == old(participants)
      ensures outcome == Renamed ==> exists lid ::
        && At(old(identities), lidHandle, lid) && old(identities)[lid].channel == "whatsapp"
        && (forall i :: i in old(identities) ==>
              old(identities)[i].channel != "whatsapp" || old(identities)[i].handle != pnHandle)
        && identities == old(identities)[lid := old(identities)[lid].(handle := pnHandle)]
        && senders == old(senders) && participants == old(participants)
      ensures outcome.Merged? || outcome == ForeignKeyViolation ==> exists lid, pn ::
        && At(old(identities), lidHandle, lid) && At(old(identities), pnHandle, pn)
        && (lidHandle != pnHandle ==> lid != pn)
        && (outcome == ForeignKeyViolation <==> lid in elsewhere || (lid == pn && SentSomething(old(senders), lid)))
        && (outcome.Merged? ==>
             && LidRowFolded(old(identities), identities, lid, pn)
             && LidSendersMoved(old(senders), senders, lid, pn)
             && LidParticipantsMoved(old(participants), participants, lid, pn))
    {
      var lidRow := Find(lidHandle);
      if lidRow == None {
        return NothingToMerge;
      }
      var lid := lidRow.value;
      var pnRow := Find(pnHandle);
      if pnRow == None {
        assert forall i :: i in identities ==> !At(identities, pnHandle, i);
        identities := identities[lid := identities[lid].(handle := pnHandle)];
        return Renamed;
      }
      outcome := Absorb(lid, pnRow.value);
    }

    /** merge once both rows are found: re-point, then delete. */
    method Absorb(lid: nat, pn: nat) returns (outcome: Outcome)
      requires Valid() && lid in identities && pn in identities
      modifies this`identities, this`senders, this`participants
      ensures Valid()
      ensures outcome.Merged? || outcome == ForeignKeyViolation
      ensures outcome == ForeignKeyViolation <==> lid in elsewhere || (lid == pn && SentSomething(old(senders), lid))
      ensures outcome == ForeignKeyViolation ==>
        identities == old(identities) && senders == old(senders) && participants == old(participants)
      ensures outcome.Merged? ==>
        && LidRowFolded(old(identities), identities, lid, pn)
        && LidSendersMoved(old(senders), senders, lid, pn)
        && LidParticipantsMoved(old(participants), participants, lid, pn)
        && participants == Repointed(old(participants), lid, pn)
        && outcome.messages == |set m | m in old(senders) && old(senders)[m] == Some(lid)|
        && outcome.participants ==
             |set r | r in old(participants) && r.identity == lid && r.(identity := pn) !in old(participants)|
    {
      hide Consistent, Repointed, LidRowFolded, LidSendersMoved, LidParticipantsMoved;
      var before, sendersBefore, participantsBefore := identities, senders, participants;
      if identities[pn].displayName == None && identities[lid].displayName.Some? {
        identities := identities[pn := identities[pn].(displayName := identities[lid].displayName)];
      }
      assert identities == before[pn := FilledName(before, lid, pn)];
      var movedMessages := set m | m in senders && senders[m] == Some(lid);
      senders := map m | m in senders :: if senders[m] == Some(lid) then Some(pn) else senders[m];
      assert senders == SubstitutedSenders(sendersBefore, lid, pn);
      var movable := set r | r in participants && r.identity == lid && r.(identity := pn) !in participants;
      participants := (participants - movable) + set r | r in movable :: r.(identity := pn);
      participants := set r | r in participants && r.identity != lid;
      TwoSteps(participantsBefore, lid, pn, movable, participants);
      StillSending(sendersBefore, lid, pn);
      hide SentSomething, SubstitutedSenders;
      if lid in elsewhere || SentSomething(senders, lid) {
        identities, senders, participants := before, sendersBefore, participantsBefore;
        return ForeignKeyViolation;
      }
      AbsorbingKeepsConsistent(before, sendersBefore, participantsBefore, lid, pn);
      FoldingIs(before, lid, pn);
      SendersMove(sendersBefore, lid, pn);
      ParticipantsMove(participantsBefore, lid, pn);
      identities := identities - {lid};
      outcome := Merged(|movedMessages|, |movable|);
    }
  }

  function FilledName(ids: map<nat, IdentityRow>, lid: nat, pn: nat): IdentityRow
    requires lid in ids && pn in ids
  {
    ids[pn].(displayName := if ids[pn].displayName.Some? then ids[pn].displayName else ids[lid].displayName)
  }

  predicate SentSomething(senders: map<nat, Option<nat>>, i: nat) {
    exists m :: m in senders && senders[m] == Some(i)
  }

  function SubstitutedSenders(senders: map<nat, Option<nat>>, lid: nat, pn: nat): map<nat, Option<nat>> {
    map m | m in senders :: if senders[m].Some? then Some(Substitute(lid, pn, senders[m].value)) else None
  }
}
