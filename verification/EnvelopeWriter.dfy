/**
  The one writer of envelopes into the store: upserting is idempotent however envelopes are replayed,
  and what the tables say of a message or a handle is what the first envelope said.
 */
module EnvelopeWriter {
  import opened Wrappers

  /** Rows are referred to by their unique (channel, handle) or (channel, external id) pair. */
  datatype Key = Key(channel: string, id: string)

  datatype Envelope = Envelope(
    channel: string,
    externalId: string,
    threadExternalId: string,
    isGroup: bool,
    fromHandle: string,
    fromDisplayName: Option<string>,
    toHandles: seq<string>,
    toDisplayNames: seq<Option<string>>,
    ccHandles: seq<string>,
    ccDisplayNames: seq<Option<string>>,
    content: string)  // direction, time, subject, body, automation flag and raw payload

  datatype IdentityRow = IdentityRow(isSelf: bool, displayName: Option<string>)

  datatype MessageRow = MessageRow(thread: Key, sender: Key, content: string)

  datatype Participant = Participant(message: Key, identity: Key, role: string)

  datatype Tables = Tables(
    threads: map<Key, bool>,
    identities: map<Key, IdentityRow>,
    messages: map<Key, MessageRow>,
    participants: set<Participant>)

  const EMPTY := Tables(map[], map[], map[], {})

  /** One upsert call; the set of own handles may differ from call to call. */
  datatype Call = Call(env: Envelope, selfHandles: set<string>)

  // ---------------------------------------------------------------- what one call writes

  /** A handle named in an envelope, with the display name given for it; an empty name is no name. */
  datatype Mention = Mention(handle: string, name: Option<string>)

  function Named(handle: string, names: seq<Option<string>>, i: nat): Mention {
    var name := if i < |names| then names[i] else None;
    Mention(handle, if name == Some("") then None else name)
  }

  function Mentions(handles: seq<string>, names: seq<Option<string>>): seq<Mention> {
    seq(|handles|, i requires 0 <= i < |handles| => Named(handles[i], names, i))
  }

  /** Every handle of an envelope in the order it is resolved: sender, to, cc. */
  function AllMentions(env: Envelope): seq<Mention> {
    [Named(env.fromHandle, [env.fromDisplayName], 0)] + Mentions(env.toHandles, env.toDisplayNames)
      + Mentions(env.ccHandles, env.ccDisplayNames)
  }

  /** _get_or_create_identity */
  function Resolved(ids: map<Key, IdentityRow>, channel: string, m: Mention,
                    selfHandles: set<string>): map<Key, IdentityRow> {
    var key := Key(channel, m.handle);
    if key !in ids then ids[key := IdentityRow(m.handle in selfHandles, m.name)]
    else if ids[key].displayName.None? && m.name.Some? then ids[key := ids[key].(displayName := m.name)]
    else ids
  }

  function ResolvedAll(ids: map<Key, IdentityRow>, channel: string, ms: seq<Mention>,
                       selfHandles: set<string>): map<Key, IdentityRow> {
    if ms == [] then ids
    else Resolved(ResolvedAll(ids, channel, ms[..|ms| - 1], selfHandles), channel, ms[|ms| - 1], selfHandles)
  }

  function MessageKey(env: Envelope): Key {
    Key(env.channel, env.externalId)
  }

  function RowOf(env: Envelope): MessageRow {
    MessageRow(Key(env.channel, env.threadExternalId), Key(env.channel, env.fromHandle), env.content)
  }

  function Role(env: Envelope, handles: seq<string>, role: string): set<Participant> {
    set h | h in handles :: Participant(MessageKey(env), Key(env.channel, h), role)
  }

  function ParticipantsOf(env: Envelope): set<Participant> {
    Role(env, [env.fromHandle], "from") + Role(env, env.toHandles, "to") + Role(env, env.ccHandles, "cc")
  }

  function Upserted(t: Tables, c: Call): Tables {
    var (env, thread) := (c.env, Key(c.env.channel, c.env.threadExternalId));
    Tables(
      if thread in t.threads then t.threads else t.threads[thread := env.isGroup],
      ResolvedAll(t.identities, env.channel, AllMentions(env), c.selfHandles),
      if MessageKey(env) in t.messages then t.messages else t.messages[MessageKey(env) := RowOf(env)],
      if MessageKey(env) in t.messages then t.participants else t.participants + ParticipantsOf(env))
  }

  function Folded(t: Tables, calls: seq<Call>): Tables
    decreases |calls|
  {
    if calls == [] then t else Upserted(Folded(t, calls[..|calls| - 1]), calls[|calls| - 1])
  }

  // ---------------------------------------------------------------- the writer

  lemma {:induction false} ResolvedInParts(ids: map<Key, IdentityRow>, channel: string, xs: seq<Mention>,
                                           ys: seq<Mention>, selfs: set<string>)
    ensures ResolvedAll(ids, channel, xs + ys, selfs) ==
      ResolvedAll(ResolvedAll(ids, channel, xs, selfs), channel, ys, selfs)
    decreases |ys|
  {
    if ys == [] {
      assert xs + ys == xs;
    } else {
      assert (xs + ys)[..|xs + ys| - 1] == xs + ys[..|ys| - 1];
      ResolvedInParts(ids, channel, xs, ys[..|ys| - 1], selfs);
    }
  }

  // ---------------------------------------------------------------- what the tables hold afterwards

  ghost predicate IsGiven(given: Option<string>, name: Option<string>) {
    if given == Some("") then name == None else name == given
  }

  /** Who an envelope names: the sender, then to, then cc; names may be fewer than handles. */
  ghost predicate AreMentions(env: Envelope, ms: seq<Mention>) {
    var (to, cc) := (|env.toHandles|, |env.ccHandles|);
    && |ms| == 1 + to + cc
    && ms[0].handle == env.fromHandle && IsGiven(env.fromDisplayName, ms[0].name)
    && (forall i :: 0 <= i < to ==>
      && ms[1 + i].handle == env.toHandles[i]
      && IsGiven(if i < |env.toDisplayNames| then env.toDisplayNames[i] else None, ms[1 + i].name))
    && (forall i :: 0 <= i < cc ==>
      && ms[1 + to + i].handle == env.ccHandles[i]
      && IsGiven(if i < |env.ccDisplayNames| then env.ccDisplayNames[i] else None, ms[1 + to + i].name))
  }

  lemma MentionsInOrder(env: Envelope)
    ensures AreMentions(env, AllMentions(env))
  {
  }

  ghost predicate NoneBefore(ms: seq<Mention>, handle: string, n: nat)
    requires n <= |ms|
  {
    forall m :: 0 <= m < n && ms[m].handle == handle ==> ms[m].name == None
  }

  /** The first name among the mentions of a handle, if any of them has one. */
  ghost predicate IsFirstName(ms: seq<Mention>, handle: string, name: Option<string>) {
    match name
    case None => NoneBefore(ms, handle, |ms|)
    case Some(_) => exists n :: 0 <= n < |ms| && ms[n] == Mention(handle, name) && NoneBefore(ms, handle, n)
  }

  ghost predicate IsMentioned(ms: seq<Mention>, handle: string) {
    exists n :: 0 <= n < |ms| && ms[n].handle == handle
  }

  /** A new handle's row says whether it is one's own; an old row changes where it had no name. */
  ghost predicate IsResolved(x: map<Key, IdentityRow>, y: map<Key, IdentityRow>, channel: string, ms: seq<Mention>,
                             selfHandles: set<string>, k: Key) {
    && (k in y <==> k in x || (k.channel == channel && IsMentioned(ms, k.id)))
    && (k in y ==> (y[k].isSelf <==> if k in x then x[k].isSelf else k.id in selfHandles))
    && (k in y ==>
      if (k in x && x[k].displayName.Some?) || k.channel != channel then k in x && y[k] == x[k]
      else IsFirstName(ms, k.id, y[k].displayName))
  }

  ghost predicate AreResolved(x: map<Key, IdentityRow>, y: map<Key, IdentityRow>, channel: string, ms: seq<Mention>,
                              selfHandles: set<string>) {
    forall k :: IsResolved(x, y, channel, ms, selfHandles, k)
  }

  lemma {:induction false} ResolvedAre(x: map<Key, IdentityRow>, channel: string, ms: seq<Mention>,
                                       selfs: set<string>)
    ensures AreResolved(x, ResolvedAll(x, channel, ms, selfs), channel, ms, selfs)
    decreases |ms|
  {
    if ms == [] {
      assert forall k: Key :: !IsMentioned(ms, k.id);
    } else {
      var (rest, last) := (ms[..|ms| - 1], ms[|ms| - 1]);
      assert ms == rest + [last];
      ResolvedAre(x, channel, rest, selfs);
      hide IsResolved, Resolved;
      forall k {
        OneMoreResolved(x, ResolvedAll(x, channel, rest, selfs), channel, rest, last, selfs, k);
      }
    }
  }

  lemma OneIsResolved(x: map<Key, IdentityRow>, channel: string, m: Mention, selfs: set<string>)
    ensures AreResolved(x, Resolved(x, channel, m, selfs), channel, [m], selfs)
  {
    ResolvedAre(x, channel, [m], selfs);
    assert ResolvedAll(x, channel, [], selfs) == x && [m][..0] == [];
  }

  lemma OneMoreName(ms: seq<Mention>, m: Mention, handle: string, name: Option<string>)
    requires IsFirstName(ms, handle, name)
    ensures IsFirstName(ms + [m], handle, if name.None? && m.handle == handle then m.name else name)
  {
    var all := ms + [m];
    assert all[|ms|] == m && forall n :: 0 <= n < |ms| ==> all[n] == ms[n];
    if name.Some? {
      var n :| 0 <= n < |ms| && ms[n] == Mention(handle, name) && NoneBefore(ms, handle, n);
      assert all[n] == Mention(handle, name) && NoneBefore(all, handle, n);
    }
  }

  lemma OneMoreMentioned(ms: seq<Mention>, m: Mention, handle: string)
    ensures IsMentioned(ms + [m], handle) <==> IsMentioned(ms, handle) || m.handle == handle
  {
    var all := ms + [m];
    assert all[|ms|] == m && forall n :: 0 <= n < |ms| ==> all[n] == ms[n];
  }

  lemma OneMoreResolved(x: map<Key, IdentityRow>, y: map<Key, IdentityRow>, channel: string, ms: seq<Mention>,
                        m: Mention, selfs: set<string>, k: Key)
    requires IsResolved(x, y, channel, ms, selfs, k)
    ensures IsResolved(x, Resolved(y, channel, m, selfs), channel, ms + [m], selfs, k)
  {
    OneMoreMentioned(ms, m, k.id);
    if k in y && IsFirstName(ms, k.id, y[k].displayName) {
      OneMoreName(ms, m, k.id, y[k].displayName);
    } else if k !in y && k.channel == channel {
      assert IsFirstName(ms, k.id, None);
      OneMoreName(ms, m, k.id, None);
    }
    hide IsFirstName, IsMentioned;
  }

  /** One envelope's effect on the four tables. */
  ghost predicate IsWritten(t: Tables, u: Tables, env: Envelope, selfHandles: set<string>) {
    var (thread, message) := (Key(env.channel, env.threadExternalId), Key(env.channel, env.externalId));
    && (if thread in t.threads then u.threads == t.threads else u.threads == t.threads[thread := env.isGroup])
    && (exists ms :: AreMentions(env, ms) && AreResolved(t.identities, u.identities, env.channel, ms, selfHandles))
    && if message in t.messages then u.messages == t.messages && u.participants == t.participants
       else
         && u.messages ==
           t.messages[message := MessageRow(thread, Key(env.channel, env.fromHandle), env.content)]
         && forall p :: p in u.participants <==>
           p in t.participants || (p.message == message && p.identity.channel == env.channel && TakesPart(env, p))
  }

  ghost predicate TakesPart(env: Envelope, p: Participant) {
    || (p.role == "from" && p.identity.id == env.fromHandle)
    || (p.role == "to" && p.identity.id in env.toHandles)
    || (p.role == "cc" && p.identity.id in env.ccHandles)
  }

  lemma UpsertedIsWritten(t: Tables, c: Call)
    ensures IsWritten(t, Upserted(t, c), c.env, c.selfHandles)
  {
    ResolvedAre(t.identities, c.env.channel, AllMentions(c.env), c.selfHandles);
    MentionsInOrder(c.env);
    hide AllMentions, ResolvedAll, AreResolved, AreMentions;
    forall p: Participant | p.message == MessageKey(c.env) && p.identity.channel == c.env.channel && TakesPart(c.env, p)
      ensures p in ParticipantsOf(c.env)
    {
      assert p == Participant(MessageKey(c.env), Key(c.env.channel, p.identity.id), p.role);
    }
  }

  class Store {
    var threads: map<Key, bool>
    var identities: map<Key, IdentityRow>
    var messages: map<Key, MessageRow>
    var participants: set<Participant>

    ghost function Contents(): Tables
      reads this
    {
      Tables(threads, identities, messages, participants)
    }

    constructor ()
      ensures Contents() == EMPTY
    {
      threads, identities, messages, participants := map[], map[], map[], {};
    }

    method GetOrCreateIdentity(channel: string, handle: string, selfHandles: set<string>, displayName: Option<string>)
      returns (key: Key)
      modifies this`identities
      ensures identities == Resolved(old(identities), channel,
        Mention(handle, if displayName == Some("") then None else displayName), selfHandles)
      ensures AreResolved(old(identities), identities, channel,
        [Mention(handle, if displayName == Some("") then None else displayName)], selfHandles)
      ensures key == Key(channel, handle)
    {
      var name := if displayName == Some("") then None else displayName;
      OneIsResolved(identities, channel, Mention(handle, name), selfHandles);
      key := Key(channel, handle);
      if key !in identities {
        identities := identities[key := IdentityRow(handle in selfHandles, name)];
      } else if identities[key].displayName == None && name.Some? {
        identities := identities[key := identities[key].(displayName := name)];
      }
    }

    /** The list comprehensions over to_handles and cc_handles. */
    method ResolveHandles(channel: string, handles: seq<string>, names: seq<Option<string>>, selfHandles: set<string>)
      returns (keys: seq<Key>)
      modifies this`identities
      ensures identities == ResolvedAll(old(identities), channel, Mentions(handles, names), selfHandles)
      ensures |keys| == |handles| && forall i :: 0 <= i < |handles| ==> keys[i] == Key(channel, handles[i])
    {
      keys := [];
      for i := 0 to |handles|
        invariant identities == ResolvedAll(old(identities), channel, Mentions(handles, names)[..i], selfHandles)
        invariant |keys| == i && forall j :: 0 <= j < i ==> keys[j] == Key(channel, handles[j])
      {
        assert Mentions(handles, names)[..i + 1][..i] == Mentions(handles, names)[..i];
        var key := GetOrCreateIdentity(channel, handles[i], selfHandles, if i < |names| then names[i] else None);
        keys := keys + [key];
      }
      assert Mentions(handles, names)[..|handles|] == Mentions(handles, names);
    }

    /** insert into message_participant ... on conflict do nothing, for each key. */
    method AddParticipants(message: Key, keys: seq<Key>, role: string)
      modifies this`participants
      ensures participants == old(participants) + set k | k in keys :: Participant(message, k, role)
    {
      for i := 0 to |keys|
        invariant participants == old(participants) + set k | k in keys[..i] :: Participant(message, k, role)
      {
        assert forall k :: k in keys[..i + 1] <==> k in keys[..i] || k == keys[i];
        participants := participants + {Participant(message, keys[i], role)};
      }
      assert keys[..|keys|] == keys;
    }

    /** upsert: the sender's identity is returned whether or not the message is new. */
    method Upsert(env: Envelope, selfHandles: set<string>) returns (sender: Key)
      modifies this
      ensures Contents() == Upserted(old(Contents()), Call(env, selfHandles))
      ensures IsWritten(old(Contents()), Contents(), env, selfHandles)
      ensures sender == Key(env.channel, env.fromHandle) && sender in identities
    {
      hide Resolved, ResolvedAll, Mentions, AllMentions, Role, ParticipantsOf, IsWritten;
      UpsertedIsWritten(old(Contents()), Call(env, selfHandles));
      var thread := Key(env.channel, env.threadExternalId);
      if thread !in threads {
        threads := threads[thread := env.isGroup];
      }
      sender := GetOrCreateIdentity(env.channel, env.fromHandle, selfHandles, env.fromDisplayName);
      var alreadyExisted := MessageKey(env) in messages;
      if !alreadyExisted {
        messages := messages[MessageKey(env) := MessageRow(thread, sender, env.content)];
      }
      var toKeys := ResolveHandles(env.channel, env.toHandles, env.toDisplayNames, selfHandles);
      var ccKeys := ResolveHandles(env.channel, env.ccHandles, env.ccDisplayNames, selfHandles);
      IdentitiesInOrder(old(identities), env, selfHandles);
      assert identities == ResolvedAll(old(identities), env.channel, AllMentions(env), selfHandles);
      SenderIsKnown(old(identities), env, selfHandles);
      if alreadyExisted {
        return;
      }
      RecordParticipants(env, sender, toKeys, ccKeys);
    }

    /** The participant rows of a message just inserted. */
    method RecordParticipants(env: Envelope, sender: Key, toKeys: seq<Key>, ccKeys: seq<Key>)
      requires sender == Key(env.channel, env.fromHandle)
      requires |toKeys| == |env.toHandles| && forall i :: 0 <= i < |toKeys| ==>
                 toKeys[i] == Key(env.channel, env.toHandles[i])
      requires |ccKeys| == |env.ccHandles| && forall i :: 0 <= i < |ccKeys| ==>
                 ccKeys[i] == Key(env.channel, env.ccHandles[i])
      modifies this`participants
      ensures participants == old(participants) + ParticipantsOf(env)
    {
      AddParticipants(MessageKey(env), [sender], "from");
      AddParticipants(MessageKey(env), toKeys, "to");
      AddParticipants(MessageKey(env), ccKeys, "cc");
      KeysGiveRole(env, [env.fromHandle], [sender], "from");
      KeysGiveRole(env, env.toHandles, toKeys, "to");
      KeysGiveRole(env, env.ccHandles, ccKeys, "cc");
    }
  }

  lemma KeysGiveRole(env: Envelope, handles: seq<string>, keys: seq<Key>, role: string)
    requires |keys| == |handles| && forall i :: 0 <= i < |handles| ==> keys[i] == Key(env.channel, handles[i])
    ensures (set k | k in keys :: Participant(MessageKey(env), k, role)) == Role(env, handles, role)
  {
    var roles := Role(env, handles, role);
    forall k | k in keys ensures Participant(MessageKey(env), k, role) in roles {
      var i :| 0 <= i < |keys| && keys[i] == k;
      assert handles[i] in handles;
    }
    forall h | h in handles ensures Key(env.channel, h) in keys {
      var i :| 0 <= i < |handles| && handles[i] == h;
      assert keys[i] in keys;
    }
  }

  lemma IdentitiesInOrder(ids: map<Key, IdentityRow>, env: Envelope, selfs: set<string>)
    ensures ResolvedAll(ids, env.channel, AllMentions(env), selfs) ==
      ResolvedAll(ResolvedAll(Resolved(ids, env.channel, Named(env.fromHandle, [env.fromDisplayName], 0), selfs),
                              env.channel, Mentions(env.toHandles, env.toDisplayNames), selfs),
                  env.channel, Mentions(env.ccHandles, env.ccDisplayNames), selfs)
  {
    var (first, to, cc) := ([Named(env.fromHandle, [env.fromDisplayName], 0)],
                            Mentions(env.toHandles, env.toDisplayNames),
                            Mentions(env.ccHandles, env.ccDisplayNames));
    ResolvedInParts(ids, env.channel, first + to, cc, selfs);
    ResolvedInParts(ids, env.channel, first, to, selfs);
    assert first[..0] == [];
    assert ResolvedAll(ids, env.channel, first, selfs) == Resolved(ids, env.channel, first[0], selfs);
  }

  lemma SenderIsKnown(ids: map<Key, IdentityRow>, env: Envelope, selfs: set<string>)
    ensures Key(env.channel, env.fromHandle) in ResolvedAll(ids, env.channel, AllMentions(env), selfs)
  {
    assert AllMentions(env)[0].handle == env.fromHandle && AllMentions(env)[0] in AllMentions(env);
    MentionsAreResolved(ids, env.channel, AllMentions(env), selfs);
  }

  // ---------------------------------------------------------------- idempotence

  /** Identities stay, keep their flag and any name they have. */
  ghost predicate IdsGrow(x: map<Key, IdentityRow>, y: map<Key, IdentityRow>) {
    forall k :: k in x ==> k in y && y[k].isSelf == x[k].isSelf && (x[k].displayName.Some? ==> y[k] == x[k])
  }

  ghost predicate MentionSettled(ids: map<Key, IdentityRow>, channel: string, m: Mention) {
    Key(channel, m.handle) in ids && (m.name.Some? ==> ids[Key(channel, m.handle)].displayName.Some?)
  }

  lemma {:induction false} MentionsAreResolved(ids: map<Key, IdentityRow>, channel: string, ms: seq<Mention>,
                                               selfs: set<string>)
    ensures IdsGrow(ids, ResolvedAll(ids, channel, ms, selfs))
    ensures forall m :: m in ms ==> MentionSettled(ResolvedAll(ids, channel, ms, selfs), channel, m)
    decreases |ms|
  {
    if ms != [] {
      var (rest, last) := (ms[..|ms| - 1], ms[|ms| - 1]);
      MentionsAreResolved(ids, channel, rest, selfs);
      assert ms == rest + [last];
      assert forall m :: m in ms ==> m in rest || m == last;
    }
  }

  lemma {:induction false} SettledMentionsChangeNothing(ids: map<Key, IdentityRow>, channel: string, ms: seq<Mention>,
                                                        selfs: set<string>)
    requires forall m :: m in ms ==> MentionSettled(ids, channel, m)
    ensures ResolvedAll(ids, channel, ms, selfs) == ids
    decreases |ms|
  {
    if ms != [] {
      assert ms[|ms| - 1] in ms;
      SettledMentionsChangeNothing(ids, channel, ms[..|ms| - 1], selfs);
    }
  }

  ghost predicate Settled(t: Tables, env: Envelope) {
    && Key(env.channel, env.threadExternalId) in t.threads
    && MessageKey(env) in t.messages
    && forall m :: m in AllMentions(env) ==> MentionSettled(t.identities, env.channel, m)
  }

  lemma UpsertSettles(t: Tables, c: Call, env: Envelope)
    requires env == c.env || Settled(t, env)
    ensures Settled(Upserted(t, c), env)
  {
    MentionsAreResolved(t.identities, c.env.channel, AllMentions(c.env), c.selfHandles);
  }

  lemma {:induction false} FoldSettles(t: Tables, calls: seq<Call>)
    ensures forall c :: c in calls ==> Settled(Folded(t, calls), c.env)
    decreases |calls|
  {
    if calls != [] {
      var rest := calls[..|calls| - 1];
      FoldSettles(t, rest);
      assert calls == rest + [calls[|calls| - 1]];
      forall c | c in calls ensures Settled(Folded(t, calls), c.env) {
        UpsertSettles(Folded(t, rest), calls[|calls| - 1], c.env);
      }
    }
  }

  lemma {:induction false} SettledFoldChangesNothing(t: Tables, calls: seq<Call>)
    requires forall c :: c in calls ==> Settled(t, c.env)
    ensures Folded(t, calls) == t
    decreases |calls|
  {
    if calls != [] {
      SettledFoldChangesNothing(t, calls[..|calls| - 1]);
      var last := calls[|calls| - 1];
      SettledMentionsChangeNothing(t.identities, last.env.channel, AllMentions(last.env), last.selfHandles);
    }
  }

  /**
    After any list of envelopes, replaying envelopes drawn from it, in any order, any number of times
    and with any own handles, changes no row of any table.
   */
  lemma ReplayChangesNothing(t: Tables, calls: seq<Call>, replay: seq<Call>)
    requires forall r :: r in replay ==> exists c :: c in calls && c.env == r.env
    ensures Folded(Folded(t, calls), replay) == Folded(t, calls)
  {
    FoldSettles(t, calls);
    SettledFoldChangesNothing(Folded(t, calls), replay);
  }

  // ---------------------------------------------------------------- the first word counts

  /** The first envelope of a list for a message. */
  function FirstFor(calls: seq<Call>, key: Key): Option<Envelope>
    decreases |calls|
  {
    if calls == [] then None
    else if MessageKey(calls[0].env) == key then Some(calls[0].env)
    else FirstFor(calls[1..], key)
  }

  lemma {:induction false} FirstOfLonger(calls: seq<Call>, c: Call, key: Key)
    ensures FirstFor(calls + [c], key) ==
      if FirstFor(calls, key).Some? then FirstFor(calls, key)
      else if MessageKey(c.env) == key then Some(c.env) else None
    decreases |calls|
  {
    if calls != [] {
      assert (calls + [c])[1..] == calls[1..] + [c];
      FirstOfLonger(calls[1..], c, key);
    }
  }

  /** One row per message, and its row and participants are those of the first envelope that carried it. */
  lemma {:induction false} FirstEnvelopeDecides(calls: seq<Call>, key: Key)
    ensures var t := Folded(EMPTY, calls);
      match FirstFor(calls, key)
      case None => key !in t.messages && forall p :: p in t.participants ==> p.message != key
      case Some(env) =>
        && key in t.messages && t.messages[key] == RowOf(env)
        && (set p | p in t.participants && p.message == key) == ParticipantsOf(env)
    decreases |calls|
  {
    if calls != [] {
      var (rest, last) := (calls[..|calls| - 1], calls[|calls| - 1]);
      FirstEnvelopeDecides(rest, key);
      FirstOfLonger(rest, last, key);
      assert calls == rest + [last];
      assert forall p :: p in ParticipantsOf(last.env) ==> p.message == MessageKey(last.env);
    }
  }

  /** The first non-empty name among mentions. */
  function FirstName(ms: seq<(Key, Option<string>)>, key: Key): Option<string>
    decreases |ms|
  {
    if ms == [] then None
    else
      var earlier := FirstName(ms[..|ms| - 1], key);
      if earlier.Some? || ms[|ms| - 1].0 != key then earlier else ms[|ms| - 1].1
  }

  function Tagged(channel: string, ms: seq<Mention>): seq<(Key, Option<string>)> {
    seq(|ms|, i requires 0 <= i < |ms| => (Key(channel, ms[i].handle), ms[i].name))
  }

  /** Every mention of a list of calls, in the order the handles are resolved. */
  function History(calls: seq<Call>): seq<(Key, Option<string>)>
    decreases |calls|
  {
    if calls == [] then []
    else
      var last := calls[|calls| - 1].env;
      History(calls[..|calls| - 1]) + Tagged(last.channel, AllMentions(last))
  }

  /** The table's names are the first names of the mentions so far. */
  ghost predicate NamesAreFirst(ids: map<Key, IdentityRow>, past: seq<(Key, Option<string>)>) {
    && (forall k :: k in ids ==> ids[k].displayName == FirstName(past, k))
    && (forall k :: k !in ids ==> FirstName(past, k) == None)
  }

  lemma OneMoreMention(ids: map<Key, IdentityRow>, past: seq<(Key, Option<string>)>, channel: string, m: Mention,
                       selfs: set<string>)
    requires NamesAreFirst(ids, past)
    ensures NamesAreFirst(Resolved(ids, channel, m, selfs), past + [(Key(channel, m.handle), m.name)])
  {
    var all := past + [(Key(channel, m.handle), m.name)];
    assert all[..|all| - 1] == past;
  }

  lemma {:induction false} NamesAfterMentions(ids: map<Key, IdentityRow>, past: seq<(Key, Option<string>)>,
                                              channel: string,
                                              ms: seq<Mention>, selfs: set<string>)
    requires NamesAreFirst(ids, past)
    ensures NamesAreFirst(ResolvedAll(ids, channel, ms, selfs), past + Tagged(channel, ms))
    decreases |ms|
  {
    hide NamesAreFirst;
    if ms == [] {
      assert past + Tagged(channel, ms) == past;
    } else {
      var (rest, last) := (ms[..|ms| - 1], ms[|ms| - 1]);
      NamesAfterMentions(ids, past, channel, rest, selfs);
      OneMoreMention(ResolvedAll(ids, channel, rest, selfs), past + Tagged(channel, rest), channel, last, selfs);
      assert past + Tagged(channel, ms) == past + Tagged(channel, rest) + [(Key(channel, last.handle), last.name)];
    }
  }

  /** Each handle's display name is the first non-empty one any envelope gave for it. */
  lemma {:induction false} FirstNameWins(calls: seq<Call>)
    ensures NamesAreFirst(Folded(EMPTY, calls).identities, History(calls))
    decreases |calls|
  {
    if calls != [] {
      hide NamesAreFirst;
      var (rest, last) := (calls[..|calls| - 1], calls[|calls| - 1]);
      FirstNameWins(rest);
      NamesAfterMentions(Folded(EMPTY, rest).identities, History(rest), last.env.channel, AllMentions(last.env),
        last.selfHandles);
    }
  }
}
