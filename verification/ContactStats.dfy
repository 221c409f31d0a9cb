/**
  The contact_stats and contact_reciprocity views as functions of the partition into contacts, and
  what merging and undoing do to them.
 */
module ContactStats {
  import opened Wrappers
  import opened StoreModel
  import opened SafetyChecks
  import opened Runs
  import opened PersonForest
  import opened TreeUpkeep
  import opened GraftedTrees

  datatype Message = Message(direction: string, sentAt: int)

  datatype Participation = Participation(message: nat, identity: IdentityId, role: string)

  /** The message table and the message_participant table, whose primary key is the whole row. */
  datatype Mail = Mail(messages: map<nat, Message>, participants: set<Participation>)
  {
    function Direction(p: Participation): string {
      if p.message in messages then messages[p.message].direction else ""
    }

    function SentAt(p: Participation): int {
      if p.message in messages then messages[p.message].sentAt else 0
    }
  }

  // ---------------------------------------------------------------- the views

  /** The joined rows of every identity that is not the user's own. */
  function Counted(s: Store, mail: Mail): set<Participation> {
    set p | p in mail.participants && p.message in mail.messages && p.identity in s.identities
      && !s.identities[p.identity].isSelf
  }

  /** The joined rows grouped under one contact key. */
  function Rows(s: Store, mail: Mail, key: ContactKey): set<Participation> {
    set p | p in Counted(s, mail) && p.identity in s.identities && s.KeyOf(p.identity) == key
  }

  function Directed(mail: Mail, rows: set<Participation>, direction: string): set<Participation> {
    set p | p in rows && mail.Direction(p) == direction
  }

  ghost predicate IsFirst(mail: Mail, rows: set<Participation>, at: int) {
    (exists p :: p in rows && mail.SentAt(p) == at) && (forall p :: p in rows ==> at <= mail.SentAt(p))
  }

  ghost predicate IsLast(mail: Mail, rows: set<Participation>, at: int) {
    (exists p :: p in rows && mail.SentAt(p) == at) && (forall p :: p in rows ==> mail.SentAt(p) <= at)
  }

  lemma {:induction false} FirstAndLastExist(mail: Mail, rows: set<Participation>) returns (first: int, last: int)
    requires rows != {}
    ensures IsFirst(mail, rows, first) && IsLast(mail, rows, last)
    decreases rows
  {
    var p :| p in rows;
    first, last := mail.SentAt(p), mail.SentAt(p);
    var rest := rows - {p};
    assert rows == rest + {p};
    if rest != {} {
      var (f, l) := (0, 0);
      var first', last' := FirstAndLastExist(mail, rest);
      first := if first' < first then first' else first;
      last := if last' > last then last' else last;
    }
  }

  /** The counting columns and the first and last contact of a contact's row. */
  datatype Stats = Stats(sent: nat, received: nat, total: nat, first: int, last: int)

  /** The aggregates over one group of rows; an empty group has no row in the view. */
  ghost predicate Aggregates(mail: Mail, rows: set<Participation>, stats: Option<Stats>) {
    if rows == {} then stats == None
    else
      && stats.Some?
      && stats.value.sent == |Directed(mail, rows, "outbound")|
      && stats.value.received == |Directed(mail, rows, "inbound")|
      && stats.value.total == |rows|
      && IsFirst(mail, rows, stats.value.first)
      && IsLast(mail, rows, stats.value.last)
  }

  /** The contact's row in contact_stats, if it has one. */
  ghost predicate HasStats(s: Store, mail: Mail, key: ContactKey, stats: Option<Stats>) {
    Aggregates(mail, Rows(s, mail, key), stats)
  }

  /** Every contact has statistics, and they are determined by its rows. */
  lemma StatsExist(s: Store, mail: Mail, key: ContactKey) returns (stats: Option<Stats>)
    ensures HasStats(s, mail, key, stats)
    ensures forall other :: HasStats(s, mail, key, other) ==> other == stats
  {
    var rows := Rows(s, mail, key);
    if rows == {} {
      stats := None;
    } else {
      var first, last := FirstAndLastExist(mail, rows);
      stats := Some(Stats(|Directed(mail, rows, "outbound")|, |Directed(mail, rows, "inbound")|, |rows|, first, last));
    }
  }

  /** What one more message does to the row of somebody it was exchanged with. */
  ghost predicate CountsOneMore(msg: Message, x: Option<Stats>, y: Option<Stats>) {
    && y.Some?
    && y.value.total == 1 + (if x.Some? then x.value.total else 0)
    && y.value.sent == (if msg.direction == "outbound" then 1 else 0) + (if x.Some? then x.value.sent else 0)
    && y.value.received == (if msg.direction == "inbound" then 1 else 0) + (if x.Some? then x.value.received else 0)
    && y.value.first == (if x.Some? && x.value.first < msg.sentAt then x.value.first else msg.sentAt)
    && y.value.last == (if x.Some? && x.value.last > msg.sentAt then x.value.last else msg.sentAt)
  }

  lemma DirectedLater(mail: Mail, later: Mail, rows: set<Participation>, more: set<Participation>, p: Participation,
                      direction: string)
    requires p !in rows && (more == rows || more == rows + {p})
    requires forall q :: q in rows ==> later.Direction(q) == mail.Direction(q)
    ensures |Directed(later, more, direction)| == |Directed(mail, rows, direction)| +
      if p in more && later.Direction(p) == direction then 1 else 0
  {
    var others := Directed(mail, rows, direction);
    assert Directed(later, more, direction) ==
      others + if p in more && later.Direction(p) == direction then {p} else {};
  }

  lemma AggregatesGrow(mail: Mail, later: Mail, rows: set<Participation>, p: Participation, msg: Message,
                       x: Option<Stats>, y: Option<Stats>)
    requires p !in rows && later.Direction(p) == msg.direction && later.SentAt(p) == msg.sentAt
    requires SameMail(mail, later, rows)
    requires Aggregates(mail, rows, x) && Aggregates(later, rows + {p}, y)
    ensures CountsOneMore(msg, x, y)
  {
    DirectedLater(mail, later, rows, rows + {p}, p, "outbound");
    DirectedLater(mail, later, rows, rows + {p}, p, "inbound");
    assert p in rows + {p} && |rows + {p}| == |rows| + 1;
    hide Directed;
    assert forall q :: q in rows ==> q in rows + {p};
    if rows == {} {
      assert forall q :: q in rows + {p} ==> q == p;
    }
  }

  ghost predicate SameMail(mail: Mail, later: Mail, rows: set<Participation>) {
    forall q :: q in rows ==> later.Direction(q) == mail.Direction(q) && later.SentAt(q) == mail.SentAt(q)
  }

  lemma AggregatesStay(mail: Mail, later: Mail, rows: set<Participation>, x: Option<Stats>, y: Option<Stats>)
    requires SameMail(mail, later, rows)
    requires Aggregates(mail, rows, x) && Aggregates(later, rows, y)
    ensures x == y
  {
    assert Directed(later, rows, "outbound") == Directed(mail, rows, "outbound");
    assert Directed(later, rows, "inbound") == Directed(mail, rows, "inbound");
  }

  /** A new message counts for the contact of the identity that takes part, unless that is the user's own. */
  lemma OneMoreMessage(s: Store, mail: Mail, id: nat, msg: Message, p: Participation, key: ContactKey,
                       x: Option<Stats>, y: Option<Stats>)
    requires id !in mail.messages && p.message == id && forall q :: q in mail.participants ==> q.message != id
    requires HasStats(s, mail, key, x)
    requires HasStats(s, Mail(mail.messages[id := msg], mail.participants + {p}), key, y)
    ensures if p.identity in s.identities && !s.identities[p.identity].isSelf && s.KeyOf(p.identity) == key
            then CountsOneMore(msg, x, y) else y == x
  {
    var later := Mail(mail.messages[id := msg], mail.participants + {p});
    var rows := Rows(s, mail, key);
    OneMoreRow(s, mail, id, msg, p, key);
    hide Rows, Aggregates;
    if p.identity in s.identities && !s.identities[p.identity].isSelf && s.KeyOf(p.identity) == key {
      AggregatesGrow(mail, later, rows, p, msg, x, y);
    } else {
      AggregatesStay(mail, later, rows, x, y);
    }
  }

  lemma OneMoreRow(s: Store, mail: Mail, id: nat, msg: Message, p: Participation, key: ContactKey)
    requires id !in mail.messages && p.message == id && forall q :: q in mail.participants ==> q.message != id
    ensures var later := Mail(mail.messages[id := msg], mail.participants + {p});
      && p !in Rows(s, mail, key) && SameMail(mail, later, Rows(s, mail, key))
      && Rows(s, later, key) == Rows(s, mail, key) +
        if p.identity in s.identities && !s.identities[p.identity].isSelf && s.KeyOf(p.identity) == key then {p}
        else {}
  {
    var later := Mail(mail.messages[id := msg], mail.participants + {p});
    assert Counted(s, later) == Counted(s, mail) +
      if p.identity in s.identities && !s.identities[p.identity].isSelf then {p} else {};
    assert forall q :: q in Counted(s, mail) ==> q in mail.participants && q.message in mail.messages;
    hide Counted;
  }

  function Min(x: int, y: int): int { if x <= y then x else y }

  function Max(x: int, y: int): int { if x <= y then y else x }

  /** Two contacts' statistics as one contact's. */
  function Combined(x: Option<Stats>, y: Option<Stats>): Option<Stats> {
    match (x, y)
    case (None, _) => y
    case (_, None) => x
    case (Some(u), Some(v)) =>
      Some(Stats(u.sent + v.sent, u.received + v.received, u.total + v.total,
                 Min(u.first, v.first), Max(u.last, v.last)))
  }

  // ---------------------------------------------------------------- merging

  lemma MergedRows(s: Store, mail: Mail, a: IdentityId, b: IdentityId, rule: string, kind: string,
                   newPerson: PersonId, names: Names, key: ContactKey)
    requires ForeignKeys(s) && a in s.identities && b in s.identities && newPerson !in s.persons
    ensures var (t, survivor) := (Merged(s, a, b, rule, kind, newPerson, names),
                                  PersonKey(Survivor(s, a, b, newPerson)));
      if key == survivor then Rows(t, mail, key) == Rows(s, mail, s.KeyOf(a)) + Rows(s, mail, s.KeyOf(b))
      else if key == s.KeyOf(a) || key == s.KeyOf(b) then Rows(t, mail, key) == {}
      else Rows(t, mail, key) == Rows(s, mail, key)
  {
    var t := Merged(s, a, b, rule, kind, newPerson, names);
    NewSurvivorHoldsNobody(s, a, b, newPerson);
    forall i | i in s.identities
      ensures t.KeyOf(i) == (if s.KeyOf(i) == s.KeyOf(a) || s.KeyOf(i) == s.KeyOf(b)
                             then PersonKey(Survivor(s, a, b, newPerson)) else s.KeyOf(i))
      ensures i in s.Contact(s.KeyOf(i))
    {
      MergedKey(s, a, b, rule, kind, newPerson, names, i);
    }
  }

  lemma ExtremesCombine(mail: Mail, left: set<Participation>, right: set<Participation>, u: Stats, v: Stats)
    requires IsFirst(mail, left, u.first) && IsFirst(mail, right, v.first)
    requires IsLast(mail, left, u.last) && IsLast(mail, right, v.last)
    ensures IsFirst(mail, left + right, Min(u.first, v.first)) && IsLast(mail, left + right, Max(u.last, v.last))
  {
    var rows := left + right;
    assert forall p :: p in rows <==> p in left || p in right;
  }

  lemma DirectedAdds(mail: Mail, left: set<Participation>, right: set<Participation>, direction: string)
    requires left !! right
    ensures |Directed(mail, left + right, direction)| ==
      |Directed(mail, left, direction)| + |Directed(mail, right, direction)|
  {
    assert Directed(mail, left + right, direction) ==
      Directed(mail, left, direction) + Directed(mail, right, direction);
  }

  lemma DisjointStatsAdd(mail: Mail, left: set<Participation>, right: set<Participation>, x: Option<Stats>,
                         y: Option<Stats>)
    requires left !! right && Aggregates(mail, left, x) && Aggregates(mail, right, y)
    ensures Aggregates(mail, left + right, Combined(x, y))
  {
    hide IsFirst, IsLast, Directed;
    var rows := left + right;
    DirectedAdds(mail, left, right, "outbound");
    DirectedAdds(mail, left, right, "inbound");
    if left == {} {
      assert rows == right;
    } else if right == {} {
      assert rows == left;
    } else {
      ExtremesCombine(mail, left, right, x.value, y.value);
    }
  }

  /**
    Merging conserves statistics: the survivor's counts are the sums over the distinct contacts
    merged, its first and last contact their minimum and maximum; a key left behind has no row
    any more, and every other contact's row is unchanged.
   */
  lemma MergingConservesStats(s: Store, mail: Mail, a: IdentityId, b: IdentityId, rule: string, kind: string,
                              newPerson: PersonId, names: Names, x: Option<Stats>, y: Option<Stats>)
    requires Sound(s) && a in s.identities && b in s.identities && newPerson !in s.persons
    requires HasStats(s, mail, s.KeyOf(a), x) && HasStats(s, mail, s.KeyOf(b), y)
    ensures var (t, survivor) := (Merged(s, a, b, rule, kind, newPerson, names),
                                  PersonKey(Survivor(s, a, b, newPerson)));
      && HasStats(t, mail, survivor, if s.KeyOf(a) == s.KeyOf(b) then x else Combined(x, y))
      && (forall key, z :: key != survivor && (key == s.KeyOf(a) || key == s.KeyOf(b)) ==>
           (HasStats(t, mail, key, z) <==> z == None))
      && (forall key, z :: key != survivor && key != s.KeyOf(a) && key != s.KeyOf(b) ==>
           (HasStats(t, mail, key, z) <==> HasStats(s, mail, key, z)))
  {
    hide Sound, Merged, Rows, Survivor, Aggregates;
    var (t, survivor) := (Merged(s, a, b, rule, kind, newPerson, names), PersonKey(Survivor(s, a, b, newPerson)));
    var (left, right) := (Rows(s, mail, s.KeyOf(a)), Rows(s, mail, s.KeyOf(b)));
    MergedRowsOfSound(s, mail, a, b, rule, kind, newPerson, names, survivor);
    if s.KeyOf(a) != s.KeyOf(b) {
      RowsAreDisjoint(s, mail, s.KeyOf(a), s.KeyOf(b));
      DisjointStatsAdd(mail, left, right, x, y);
    } else {
      assert left + right == left;
    }
    forall key, z | key != survivor
      ensures if key == s.KeyOf(a) || key == s.KeyOf(b) then HasStats(t, mail, key, z) <==> z == None
              else HasStats(t, mail, key, z) <==> HasStats(s, mail, key, z)
    {
      MergedRowsOfSound(s, mail, a, b, rule, kind, newPerson, names, key);
      NoRowsNoStats(mail, z);
    }
  }

  lemma RowsAreDisjoint(s: Store, mail: Mail, ka: ContactKey, kb: ContactKey)
    requires ka != kb
    ensures Rows(s, mail, ka) !! Rows(s, mail, kb)
  {
  }

  lemma NoRowsNoStats(mail: Mail, z: Option<Stats>)
    ensures Aggregates(mail, {}, z) <==> z == None
  {
  }

  lemma MergedRowsOfSound(s: Store, mail: Mail, a: IdentityId, b: IdentityId, rule: string, kind: string,
                          newPerson: PersonId, names: Names, key: ContactKey)
    requires Sound(s) && a in s.identities && b in s.identities && newPerson !in s.persons
    ensures var (t, survivor) := (Merged(s, a, b, rule, kind, newPerson, names),
                                  PersonKey(Survivor(s, a, b, newPerson)));
      if key == survivor then Rows(t, mail, key) == Rows(s, mail, s.KeyOf(a)) + Rows(s, mail, s.KeyOf(b))
      else if key == s.KeyOf(a) || key == s.KeyOf(b) then Rows(t, mail, key) == {}
      else Rows(t, mail, key) == Rows(s, mail, key)
  {
    hide Merged, Rows, Survivor;
    MergedRows(s, mail, a, b, rule, kind, newPerson, names, key);
  }

  // ---------------------------------------------------------------- names, channels and handles

  /** The columns display_name, channels and handles of a contact's row. */
  datatype Labels = Labels(displayName: Option<string>, channels: set<string>, handles: set<string>)

  /** The display names among the rows' identities. */
  function NamesIn(s: Store, rows: set<Participation>): set<string> {
    set p | p in rows && p.identity in s.identities && s.identities[p.identity].displayName.Some?
      :: s.identities[p.identity].displayName.value
  }

  function ChannelsIn(s: Store, rows: set<Participation>): set<string> {
    set p | p in rows && p.identity in s.identities :: s.identities[p.identity].channel
  }

  function HandlesIn(s: Store, rows: set<Participation>): set<string> {
    set p | p in rows && p.identity in s.identities :: s.identities[p.identity].handle
  }

  /** max(display_name): null where there is none, else the last name in the database's collation. */
  ghost predicate IsLastName(names: set<string>, collate: string -> int, name: Option<string>) {
    match name
    case None => names == {}
    case Some(n) => n in names && forall m :: m in names ==> collate(m) <= collate(n)
  }

  /** The collation tells different names apart. */
  ghost predicate IsOrder(collate: string -> int) {
    forall x, y :: collate(x) == collate(y) ==> x == y
  }

  ghost predicate LabelsOf(s: Store, rows: set<Participation>, collate: string -> int, labels: Option<Labels>) {
    if rows == {} then labels == None
    else
      && labels.Some?
      && IsLastName(NamesIn(s, rows), collate, labels.value.displayName)
      && labels.value.channels == ChannelsIn(s, rows)
      && labels.value.handles == HandlesIn(s, rows)
  }

  lemma {:induction false} LastNameExists(names: set<string>, collate: string -> int) returns (name: Option<string>)
    ensures IsLastName(names, collate, name)
    decreases names
  {
    name := None;
    if names != {} {
      var n :| n in names;
      var rest := LastNameExists(names - {n}, collate);
      name := if rest.Some? && collate(n) <= collate(rest.value) then rest else Some(n);
      assert names == (names - {n}) + {n};
    }
  }

  /** Every contact's labels exist, and they are determined by its rows. */
  lemma LabelsExist(s: Store, mail: Mail, key: ContactKey, collate: string -> int) returns (labels: Option<Labels>)
    requires IsOrder(collate)
    ensures LabelsOf(s, Rows(s, mail, key), collate, labels)
    ensures forall other :: LabelsOf(s, Rows(s, mail, key), collate, other) ==> other == labels
    ensures labels.Some? ==> forall c ::
      c in labels.value.channels <==> exists p :: p in Rows(s, mail, key) && s.identities[p.identity].channel == c
    ensures labels.Some? ==> forall h ::
      h in labels.value.handles <==> exists p :: p in Rows(s, mail, key) && s.identities[p.identity].handle == h
  {
    var rows := Rows(s, mail, key);
    labels := None;
    if rows != {} {
      var name := LastNameExists(NamesIn(s, rows), collate);
      labels := Some(Labels(name, ChannelsIn(s, rows), HandlesIn(s, rows)));
      forall other | LabelsOf(s, rows, collate, other) ensures other == labels {
        OneLastName(NamesIn(s, rows), collate, other.value.displayName, name);
      }
    }
  }

  lemma OneLastName(names: set<string>, collate: string -> int, x: Option<string>, y: Option<string>)
    requires IsOrder(collate) && IsLastName(names, collate, x) && IsLastName(names, collate, y)
    ensures x == y
  {
    if x.Some? && y.Some? {
      assert collate(x.value) == collate(y.value);
    }
  }

  function LaterName(collate: string -> int, x: Option<string>, y: Option<string>): Option<string> {
    match (x, y)
    case (None, _) => y
    case (_, None) => x
    case (Some(m), Some(n)) => if collate(m) <= collate(n) then y else x
  }

  /** Two contacts' labels as one contact's. */
  function United(collate: string -> int, x: Option<Labels>, y: Option<Labels>): Option<Labels> {
    match (x, y)
    case (None, _) => y
    case (_, None) => x
    case (Some(u), Some(v)) =>
      Some(Labels(LaterName(collate, u.displayName, v.displayName), u.channels + v.channels, u.handles + v.handles))
  }

  lemma LabelsUnite(s: Store, left: set<Participation>, right: set<Participation>, collate: string -> int,
                    x: Option<Labels>, y: Option<Labels>)
    requires LabelsOf(s, left, collate, x) && LabelsOf(s, right, collate, y)
    ensures LabelsOf(s, left + right, collate, United(collate, x, y))
  {
    var rows := left + right;
    assert NamesIn(s, rows) == NamesIn(s, left) + NamesIn(s, right);
    assert ChannelsIn(s, rows) == ChannelsIn(s, left) + ChannelsIn(s, right);
    assert HandlesIn(s, rows) == HandlesIn(s, left) + HandlesIn(s, right);
    hide NamesIn, ChannelsIn, HandlesIn;
    if left == {} {
      assert rows == right;
    } else if right == {} {
      assert rows == left;
    }
  }

  lemma MergeKeepsLabels(s: Store, a: IdentityId, b: IdentityId, rule: string, kind: string, newPerson: PersonId,
                         names: Names, rows: set<Participation>, collate: string -> int, z: Option<Labels>)
    requires a in s.identities && b in s.identities
    ensures LabelsOf(Merged(s, a, b, rule, kind, newPerson, names), rows, collate, z) <==> LabelsOf(s, rows, collate, z)
  {
    var t := Merged(s, a, b, rule, kind, newPerson, names);
    forall i | i in s.identities
      ensures t.identities[i].displayName == s.identities[i].displayName
      ensures t.identities[i].channel == s.identities[i].channel && t.identities[i].handle == s.identities[i].handle
    {
    }
    hide Merged;
    assert NamesIn(t, rows) == NamesIn(s, rows);
    assert ChannelsIn(t, rows) == ChannelsIn(s, rows) && HandlesIn(t, rows) == HandlesIn(s, rows);
  }

  /**
    Merging unites labels: the survivor shows the channels and handles of both contacts and the later of
    their two names; a key left behind shows nothing, every other contact what it showed.
   */
  lemma MergingUnitesLabels(s: Store, mail: Mail, a: IdentityId, b: IdentityId, rule: string, kind: string,
                            newPerson: PersonId, names: Names, collate: string -> int, x: Option<Labels>,
                            y: Option<Labels>)
    requires Sound(s) && a in s.identities && b in s.identities && newPerson !in s.persons
    requires LabelsOf(s, Rows(s, mail, s.KeyOf(a)), collate, x) && LabelsOf(s, Rows(s, mail, s.KeyOf(b)), collate, y)
    ensures var (t, survivor) := (Merged(s, a, b, rule, kind, newPerson, names),
                                  PersonKey(Survivor(s, a, b, newPerson)));
      && LabelsOf(t, Rows(t, mail, survivor), collate, if s.KeyOf(a) == s.KeyOf(b) then x else United(collate, x, y))
      && (forall key, z :: key != survivor && (key == s.KeyOf(a) || key == s.KeyOf(b)) ==>
           (LabelsOf(t, Rows(t, mail, key), collate, z) <==> z == None))
      && (forall key, z :: key != survivor && key != s.KeyOf(a) && key != s.KeyOf(b) ==>
           (LabelsOf(t, Rows(t, mail, key), collate, z) <==> LabelsOf(s, Rows(s, mail, key), collate, z)))
  {
    hide Sound, Merged, Rows, Survivor, NamesIn, ChannelsIn, HandlesIn, IsLastName, United;
    var (t, survivor) := (Merged(s, a, b, rule, kind, newPerson, names), PersonKey(Survivor(s, a, b, newPerson)));
    var (left, right) := (Rows(s, mail, s.KeyOf(a)), Rows(s, mail, s.KeyOf(b)));
    MergedRowsOfSound(s, mail, a, b, rule, kind, newPerson, names, survivor);
    LabelsUnite(s, left, right, collate, x, y);
    if s.KeyOf(a) == s.KeyOf(b) {
      assert left + right == left;
    }
    MergeKeepsLabels(s, a, b, rule, kind, newPerson, names, left + right, collate,
                     if s.KeyOf(a) == s.KeyOf(b) then x else United(collate, x, y));
    forall key, z | key != survivor
      ensures LabelsOf(t, Rows(t, mail, key), collate, z) <==>
        if key == s.KeyOf(a) || key == s.KeyOf(b) then z == None else LabelsOf(s, Rows(s, mail, key), collate, z)
    {
      MergedRowsOfSound(s, mail, a, b, rule, kind, newPerson, names, key);
      MergeKeepsLabels(s, a, b, rule, kind, newPerson, names, Rows(s, mail, key), collate, z);
    }
  }

  // ---------------------------------------------------------------- grand totals

  /** A counting column of the view: sent_count, received_count or total_count. */
  datatype Column = Sent | Received | Total

  function CountedIn(mail: Mail, rows: set<Participation>, column: Column): set<Participation> {
    match column
    case Sent => Directed(mail, rows, "outbound")
    case Received => Directed(mail, rows, "inbound")
    case Total => rows
  }

  /** The columns are those of the view's rows. */
  lemma ColumnsAreStats(s: Store, mail: Mail, key: ContactKey, stats: Option<Stats>)
    requires HasStats(s, mail, key, stats)
    ensures stats.Some? ==>
      && |CountedIn(mail, Rows(s, mail, key), Sent)| == stats.value.sent
      && |CountedIn(mail, Rows(s, mail, key), Received)| == stats.value.received
      && |CountedIn(mail, Rows(s, mail, key), Total)| == stats.value.total
  {
    hide Rows;
  }

  /** Sum of one column over the given contacts. */
  ghost function GrandTotal(s: Store, mail: Mail, column: Column, keys: set<ContactKey>): nat
    decreases keys
  {
    if keys == {} then 0
    else
      var key :| key in keys;
      |CountedIn(mail, Rows(s, mail, key), column)| + GrandTotal(s, mail, column, keys - {key})
  }

  /** The joined rows of all the given contacts together. */
  ghost function RowsOfAll(s: Store, mail: Mail, keys: set<ContactKey>): set<Participation> {
    set p | p in Counted(s, mail) && p.identity in s.identities && s.KeyOf(p.identity) in keys
  }

  lemma {:induction false} TotalsCountRows(s: Store, mail: Mail, column: Column, keys: set<ContactKey>)
    ensures GrandTotal(s, mail, column, keys) == |CountedIn(mail, RowsOfAll(s, mail, keys), column)|
    decreases keys
  {
    if keys != {} {
      var key :| key in keys
        && GrandTotal(s, mail, column, keys) ==
           |CountedIn(mail, Rows(s, mail, key), column)| + GrandTotal(s, mail, column, keys - {key});
      TotalsCountRows(s, mail, column, keys - {key});
      var (own, rest, all) := (Rows(s, mail, key), RowsOfAll(s, mail, keys - {key}), RowsOfAll(s, mail, keys));
      hide RowsOfAll, Rows;
      OneContactMore(s, mail, key, keys);
      PartsCountSeparately(mail, own, rest, column);
    } else {
      assert RowsOfAll(s, mail, keys) == {};
    }
  }

  lemma OneContactMore(s: Store, mail: Mail, key: ContactKey, keys: set<ContactKey>)
    requires key in keys
    ensures RowsOfAll(s, mail, keys) == Rows(s, mail, key) + RowsOfAll(s, mail, keys - {key})
    ensures Rows(s, mail, key) !! RowsOfAll(s, mail, keys - {key})
  {
    hide Counted;
  }

  lemma PartsCountSeparately(mail: Mail, x: set<Participation>, y: set<Participation>, column: Column)
    requires x !! y
    ensures |CountedIn(mail, x + y, column)| == |CountedIn(mail, x, column)| + |CountedIn(mail, y, column)|
  {
    assert CountedIn(mail, x + y, column) == CountedIn(mail, x, column) + CountedIn(mail, y, column);
    assert CountedIn(mail, x, column) !! CountedIn(mail, y, column);
  }

  lemma GrandTotalIsAllRows(s: Store, mail: Mail, column: Column)
    ensures GrandTotal(s, mail, column, Keys(s)) == |CountedIn(mail, Counted(s, mail), column)|
  {
    TotalsCountRows(s, mail, column, Keys(s));
    assert RowsOfAll(s, mail, Keys(s)) == Counted(s, mail);
  }

  /** Nobody leaves, and whose identity is whose own stays. */
  ghost predicate KeepsPopulation(s: Store, t: Store) {
    forall i :: i in s.identities ==> i in t.identities && t.identities[i].isSelf == s.identities[i].isSelf
  }

  lemma MergeKeepsPopulation(s: Store, a: IdentityId, b: IdentityId, rule: string, kind: string, newPerson: PersonId,
                             names: Names)
    requires a in s.identities && b in s.identities
    ensures KeepsPopulation(s, Merged(s, a, b, rule, kind, newPerson, names))
  {
    hide Joined, Survivor;
  }

  lemma StepKeepsPopulation(s: Store, e: Event)
    requires Possible(s, e)
    ensures KeepsPopulation(s, Step(s, e))
  {
    hide Merged, AutomaticStatus;
    match e
    case Merge(a, b, rule, kind, newPerson, names) =>
      if a in s.identities && b in s.identities {
        MergeKeepsPopulation(s, a, b, rule, kind, newPerson, names);
      }
    case LinkContact(_, rep, other, newPerson, names) =>
      if rep in s.identities && other in s.identities {
        MergeKeepsPopulation(s, rep, other, "manual_link", "manual", newPerson, names);
      }
    case Propose(a, b, rule, blocked, newPerson, names) =>
      MergeKeepsPopulation(Appended(s, Candidate(a, b, rule, AutomaticStatus(s, a, b, blocked))), a, b, rule,
                           "automatic", newPerson, names);
    case Confirm(c, newPerson, names) =>
      if c < |s.candidates| && s.candidates[c].a in s.identities && s.candidates[c].b in s.identities {
        var row := s.candidates[c];
        MergeKeepsPopulation(s.(candidates := s.candidates[c := row.(status := Confirmed)]), row.a, row.b, row.rule,
                             "review", newPerson, names);
      }
    case _ =>
  }

  lemma {:induction false} RunKeepsPopulation(s: Store, run: seq<Event>)
    requires IsRun(s, run)
    ensures KeepsPopulation(s, Final(s, run))
    decreases |run|
  {
    if run != [] {
      StepKeepsPopulation(s, run[0]);
      RunKeepsPopulation(Step(s, run[0]), run[1..]);
    }
  }

  /** The foreign key of message_participant: whoever takes part in a message is stored. */
  ghost predicate AllStored(s: Store, mail: Mail) {
    forall p :: p in mail.participants ==> p.identity in s.identities
  }

  /**
    Every column's total over all contacts is the same after any run whatever: merges, reviews, undos of
    any kind, arrivals and added handles.
   */
  lemma GrandTotalsAreInvariant(s: Store, mail: Mail, run: seq<Event>, column: Column)
    requires AllStored(s, mail) && IsRun(s, run)
    ensures GrandTotal(Final(s, run), mail, column, Keys(Final(s, run))) == GrandTotal(s, mail, column, Keys(s))
  {
    RunKeepsPopulation(s, run);
    GrandTotalIsAllRows(s, mail, column);
    GrandTotalIsAllRows(Final(s, run), mail, column);
    assert Counted(Final(s, run), mail) == Counted(s, mail);
  }

  // ---------------------------------------------------------------- reciprocity

  lemma QuotientInRange(low: real, high: real)
    requires 0.0 <= low <= high && high > 0.0
    ensures 0.0 <= low / high <= 1.0 && low / high * high == low
    ensures (low / high == 1.0 <==> low == high) && (low / high == 0.0 <==> low == 0.0)
  {
    var q := low / high;
    assert q * high == low;
    assert q < 0.0 ==> q * high < 0.0;
    assert q > 1.0 ==> q * high > high;
  }

  /** contact_reciprocity: null without directed messages, else least over greatest. */
  function Reciprocity(sent: nat, received: nat): (ratio: Option<real>)
    ensures ratio == None <==> sent == 0 && received == 0
    ensures ratio.Some? ==> 0.0 <= ratio.value <= 1.0
    ensures ratio.Some? ==> ratio.value * Max(sent, received) as real == Min(sent, received) as real
    ensures ratio.Some? ==> (ratio.value == 1.0 <==> sent == received)
    ensures ratio.Some? ==> (ratio.value == 0.0 <==> sent == 0 || received == 0)
  {
    if Max(sent, received) == 0 then None
    else
      var (low, high) := (Min(sent, received) as real, Max(sent, received) as real);
      QuotientInRange(low, high);
      Some(low / high)
  }
}
