/** Every careful event keeps the merge trees of LinkClosure in step with the tables. */
module ClosureRuns {
  import opened StoreModel
  import opened SafetyChecks
  import opened Runs
  import opened PersonForest
  import opened LinkClosure
  import opened TreeUpkeep
  import opened GraftedTrees
  import opened SplitTrees

  lemma AddHandleTracks(h: History, s: Store, f: Forest, key: ContactKey, rep: IdentityId, i: IdentityId,
                        channel: string, handle: string, newPerson: PersonId) returns (g: Forest)
    requires Sound(s) && Tracks(h, s, f) && Possible(s, AddHandle(key, rep, i, channel, handle, newPerson))
    ensures Tracks(History(h.start, AttachedBy(s, AddHandle(key, rep, i, channel, handle, newPerson), h.added)),
                   AddedHandle(s, rep, i, channel, handle, newPerson), g)
  {
    hide Tracks, Sound, AddedHandle;
    match s.identities[rep].personId
    case Some(p) =>
      AddToPersonTracks(h, s, f, rep, i, channel, handle, newPerson);
      g := f[PersonKey(p) := Hang(f[PersonKey(p)], i)];
    case None =>
      AddToBareTracks(h, s, f, rep, i, channel, handle, newPerson);
      g := (f - {IdentityKey(rep)})[PersonKey(newPerson) := Seat(newPerson, {rep, i})];
  }

  function HistoryAfter(h: History, s: Store, e: Event): History
    requires Possible(s, e)
  {
    h.(added := AttachedBy(s, e, h.added))
  }

  lemma NamesTrack(h: History, s: Store, f: Forest, e: Event)
    requires Tracks(h, s, f) && (e.FillName? || e.RenameContact? || e.Queue? || e.Reject?) && Possible(s, e)
    ensures Tracks(h, Step(s, e), f)
  {
    hide Tracks;
    assert SameContacts(s, Step(s, e));
    SameContactsTrack(h, s, Step(s, e), f);
  }

  lemma StepTracks(h: History, s: Store, f: Forest, e: Event) returns (g: Forest)
    requires Sound(s) && Tracks(h, s, f)
    requires Possible(s, e) && CarefulEvent(h.start, s, e)
    ensures Tracks(HistoryAfter(h, s, e), Step(s, e), g)
  {
    hide Sound, Tracks, Merged, Unmerged, AutomaticStatus;
    g := f;
    match e
    case Arrive(i, record) => g := ArriveTracks(h, s, f, i, record);
    case Merge(a, b, rule, kind, newPerson, names) =>
      if ApplyMerge(s, a, b, rule, kind, newPerson, names).Ok? {
        g := MergeTracks(h, s, f, a, b, rule, kind, newPerson, names);
      }
    case Undo(k) =>
      if AcceptsUndo(s, k) {
        g := UndoTracks(h, s, f, k);
      }
    case LinkContact(_, rep, other, newPerson, names) =>
      if ApplyMerge(s, rep, other, "manual_link", "manual", newPerson, names).Ok? {
        g := MergeTracks(h, s, f, rep, other, "manual_link", "manual", newPerson, names);
      }
    case AddHandle(key, rep, i, channel, handle, newPerson) =>
      g := AddHandleTracks(h, s, f, key, rep, i, channel, handle, newPerson);
    case Propose(a, b, rule, blocked, newPerson, names) =>
      if !HasCandidate(s.candidates, a, b) {
        var queued := Appended(s, Candidate(a, b, rule, AutomaticStatus(s, a, b, blocked)));
        SameTablesKeepSound(s, queued);
        SameContactsTrack(h, s, queued, f);
        if AutomaticStatus(s, a, b, blocked) == Confirmed {
          g := MergeTracks(h, queued, f, a, b, rule, "automatic", newPerson, names);
        }
      }
    case Confirm(c, newPerson, names) =>
      if c < |s.candidates| && Step(s, e) != s {
        var row := s.candidates[c];
        var claimed := s.(candidates := s.candidates[c := row.(status := Confirmed)]);
        SameTablesKeepSound(s, claimed);
        SameContactsTrack(h, s, claimed, f);
        g := MergeTracks(h, claimed, f, row.a, row.b, row.rule, "review", newPerson, names);
      }
    case _ => NamesTrack(h, s, f, e);
  }

  /** The history a whole run leaves behind. */
  function HistoryOf(h: History, s: Store, run: seq<Event>): History
    requires IsRun(s, run)
  {
    h.(added := Attached(s, run, h.added))
  }

  lemma {:induction false} RunTracks(h: History, s: Store, f: Forest, run: seq<Event>) returns (g: Forest)
    requires Sound(s) && Tracks(h, s, f)
    requires IsRun(s, run) && CarefulRun(h.start, s, run)
    ensures Tracks(HistoryOf(h, s, run), Final(s, run), g)
    decreases |run|
  {
    hide Sound, Tracks;
    g := f;
    if run != [] {
      StepKeepsSound(s, run[0]);
      g := StepTracks(h, s, f, run[0]);
      g := RunTracks(HistoryAfter(h, s, run[0]), Step(s, run[0]), g, run[1..]);
    }
  }

  /**
    The closure theorem. After any careful run, two identities are one contact if and only if they
    are connected by the merges still in force, the contacts the run started with, and the persons to
    which identities were added by hand.
   */
  lemma ContactsAreClosureOfLog(start: Store, run: seq<Event>, x: IdentityId, y: IdentityId)
    requires Sound(start) && IsRun(start, run) && CarefulRun(start, start, run)
    requires x in Final(start, run).identities && y in Final(start, run).identities
    ensures Final(start, run).KeyOf(x) == Final(start, run).KeyOf(y) <==>
      Connected(HistoryOf(History(start, map[]), start, run), Final(start, run).log, x, y)
  {
    var f := ForestAtStart(start);
    var g := RunTracks(History(start, map[]), start, f, run);
    TrackedPartitionIsClosure(HistoryOf(History(start, map[]), start, run), Final(start, run), g, x, y);
  }

  /** A run in which nothing was added by hand attaches nothing: only contacts at the start and logged pairs link. */
  lemma {:induction false} WithoutHandlesNothingIsAttached(s: Store, run: seq<Event>, added: map<IdentityId, PersonId>)
    requires IsRun(s, run) && forall e :: e in run ==> !e.AddHandle?
    ensures Attached(s, run, added) == added
    decreases |run|
  {
    if run != [] {
      WithoutHandlesNothingIsAttached(Step(s, run[0]), run[1..], added);
    }
  }
}
