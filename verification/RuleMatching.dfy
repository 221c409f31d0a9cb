/**
  Which pairs of identities the five matching rules of adapters/resolution find, as functions of the
  rows they read. What becomes of a pair once found is in RuleRuns.dfy.
 */
module RuleMatching {
  import opened Text
  import opened Wrappers
  import opened StoreModel
  import opened Naming
  import opened Connections

  /** An identity row as the rules read it. */
  datatype Row = Row(i: IdentityId, channel: string, handle: string, displayName: Option<string>, isSelf: bool)

  datatype AddressBookEntry = AddressBookEntry(emails: seq<string>, phones: seq<string>)

  /** An Outlook message: who wrote it and the phone numbers found in its signature lines. */
  datatype SignedMessage = SignedMessage(sender: Option<IdentityId>, signaturePhones: seq<string>)

  /** One side of a found pair: a stored identity, or a LinkedIn connection's identity to upsert first. */
  datatype End = Existing(i: IdentityId) | Linkedin(handle: string, name: Option<string>)

  /** A found pair: merged automatically unless blocked or unsafe, or only ever queued. */
  datatype Match = Match(a: End, b: End, rule: string, automatic: bool, blocked: bool)

  const RULE_NAMES :=
    {"exact_email", "contact_bridge", "email_signature_phone", "outlook_same_channel_dedupe", "linkedin_name_company"}

  // ---------------------------------------------------------------- text

  /** text.split(c, 1)[0] */
  function Before(text: string, c: char): string {
    if text == "" || text[0] == c then "" else [text[0]] + Before(text[1..], c)
  }

  predicate AllDigits(text: string) {
    text != "" && forall i :: 0 <= i < |text| ==> '0' <= text[i] <= '9'
  }

  predicate EndsWith(text: string, suffix: string) {
    |suffix| <= |text| && text[|text| - |suffix|..] == suffix
  }

  /** _whatsapp_phone_digits: a group chat or a handle without a number gives none; a device suffix is dropped. */
  function PhoneDigits(handle: string): Option<string> {
    if EndsWith(handle, "@g.us") || '@' !in handle then None
    else
      var digits := Before(Before(handle, '@'), ':');
      if AllDigits(digits) then Some(digits) else None
  }

  const GENERIC_LOCAL_PARTS :=
    {"support", "info", "admin", "sales", "team", "reception", "noreply", "contact", "hello", "office"}

  predicate IsGenericRole(email: string) {
    LowerText(Before(email, '@')) in GENERIC_LOCAL_PARTS
  }

  function Words(text: string, word: string): seq<string> {
    if text == "" then if word == "" then [] else [word]
    else if IsSpace(text[0]) then (if word == "" then [] else [word]) + Words(text[1..], "")
    else Words(text[1..], word + [LowerChar(text[0])])
  }

  /** _normalise_name: the lower-cased words, separated by single spaces, as the list of words. */
  function NormalisedName(name: string): seq<string> {
    Words(name, "")
  }

  // ---------------------------------------------------------------- exact email

  predicate SameEmail(r: Row, c: Connection) {
    r.channel == "outlook" && Present(c.email) && LowerText(c.email.value) == r.handle
  }

  function EmailMatch(r: Row, c: Connection): Match {
    Match(Existing(r.i), Linkedin(c.id, DisplayName(c)),
          "exact_email", true, IsGenericRole(r.handle))
  }

  function EmailMatchesOf(r: Row, connections: seq<Connection>): seq<Match> {
    if connections == [] then []
    else
      var (rest, c) := (connections[..|connections| - 1], connections[|connections| - 1]);
      EmailMatchesOf(r, rest) +
      (if SameEmail(r, c) then [EmailMatch(r, c)] else [])
  }

  function EmailMatches(rows: seq<Row>, connections: seq<Connection>): seq<Match> {
    if rows == [] then []
    else EmailMatches(rows[..|rows| - 1], connections) + EmailMatchesOf(rows[|rows| - 1], connections)
  }

  ghost predicate IsEmailMatch(rows: seq<Row>, connections: seq<Connection>, m: Match) {
    exists r, c :: r in rows && c in connections
      && r.channel == "outlook" && c.email.Some? && c.email.value != "" && LowerText(c.email.value) == r.handle
      && m == Match(Existing(r.i), Linkedin(c.id, DisplayName(c)), "exact_email", true, IsGenericRole(r.handle))
  }

  /** The rule finds exactly the pairs of an Outlook identity and a connection with the same address. */
  lemma {:induction false} EmailMatchIff(rows: seq<Row>, connections: seq<Connection>, m: Match)
    ensures m in EmailMatches(rows, connections) <==> IsEmailMatch(rows, connections, m)
    decreases |rows|
  {
    if rows != [] {
      var (rest, last) := (rows[..|rows| - 1], rows[|rows| - 1]);
      assert rows == rest + [last];
      EmailMatchIff(rest, connections, m);
      EmailMatchOfIff(last, connections, m);
    }
  }

  lemma EmailSources(rows: seq<Row>, connections: seq<Connection>, m: Match) returns (r: Row, c: Connection)
    requires IsEmailMatch(rows, connections, m)
    ensures r in rows && c in connections && SameEmail(r, c) && m == EmailMatch(r, c)
  {
    r, c :| r in rows && c in connections
      && r.channel == "outlook" && c.email.Some? && c.email.value != "" && LowerText(c.email.value) == r.handle
      && m == Match(Existing(r.i), Linkedin(c.id, DisplayName(c)), "exact_email", true, IsGenericRole(r.handle));
  }

  lemma {:induction false} EmailMatchOfIff(r: Row, connections: seq<Connection>, m: Match)
    ensures m in EmailMatchesOf(r, connections) <==>
      exists c :: c in connections && SameEmail(r, c) && m == EmailMatch(r, c)
    decreases |connections|
  {
    if connections != [] {
      var (rest, last) := (connections[..|connections| - 1], connections[|connections| - 1]);
      assert connections == rest + [last];
      EmailMatchOfIff(r, rest, m);
    }
  }

  // ---------------------------------------------------------------- contact bridge

  function OutlookByHandle(rows: seq<Row>): map<string, IdentityId> {
    if rows == [] then map[]
    else
      var (m, r) := (OutlookByHandle(rows[..|rows| - 1]), rows[|rows| - 1]);
      if r.channel == "outlook" then m[r.handle := r.i] else m
  }

  /** The first WhatsApp identity of every number that is not excluded. */
  function WhatsappByDigits(rows: seq<Row>, excluded: set<string>): map<string, IdentityId> {
    if rows == [] then map[]
    else
      var (m, r) := (WhatsappByDigits(rows[..|rows| - 1], excluded), rows[|rows| - 1]);
      if r.channel == "whatsapp" && PhoneDigits(r.handle).Some? && PhoneDigits(r.handle).value !in excluded
         && PhoneDigits(r.handle).value !in m
      then m[PhoneDigits(r.handle).value := r.i] else m
  }

  /** The first key that the table knows. */
  function FirstKnown(keys: seq<string>, table: map<string, IdentityId>): Option<string> {
    if keys == [] then None
    else if keys[0] in table then Some(keys[0]) else FirstKnown(keys[1..], table)
  }

  /** The key found is the first one in the table, and none is found only if there is none. */
  lemma {:induction false} FirstKnownIsFirst(keys: seq<string>, table: map<string, IdentityId>)
    ensures FirstKnown(keys, table) == None <==> forall key :: key in keys ==> key !in table
    ensures FirstKnown(keys, table).Some? ==> exists k ::
      && 0 <= k < |keys| && keys[k] == FirstKnown(keys, table).value && keys[k] in table
      && forall j :: 0 <= j < k ==> keys[j] !in table
    decreases |keys|
  {
    if keys != [] {
      var rest := keys[1..];
      assert keys == [keys[0]] + rest;
      FirstKnownIsFirst(rest, table);
      if keys[0] !in table && FirstKnown(rest, table).Some? {
        var k :| 0 <= k < |rest| && rest[k] == FirstKnown(rest, table).value && rest[k] in table
          && forall j :: 0 <= j < k ==> rest[j] !in table;
        assert keys[k + 1] == rest[k] && forall j :: 0 < j < k + 1 ==> keys[j] == rest[j - 1];
      }
    }
  }

  function Lowered(emails: seq<string>): seq<string> {
    seq(|emails|, i requires 0 <= i < |emails| => LowerText(emails[i]))
  }

  function BridgeOf(e: AddressBookEntry, outlook: map<string, IdentityId>,
                    whatsapp: map<string, IdentityId>): seq<Match> {
    var (email, phone) := (FirstKnown(Lowered(e.emails), outlook), FirstKnown(e.phones, whatsapp));
    if email.Some? && email.value in outlook && phone.Some? && phone.value in whatsapp then
      [Match(Existing(outlook[email.value]), Existing(whatsapp[phone.value]), "contact_bridge", true,
             IsGenericRole(email.value))]
    else []
  }

  function BridgeMatches(book: seq<AddressBookEntry>, outlook: map<string, IdentityId>,
                         whatsapp: map<string, IdentityId>): seq<Match> {
    if book == [] then []
    else BridgeMatches(book[..|book| - 1], outlook, whatsapp) + BridgeOf(book[|book| - 1], outlook, whatsapp)
  }

  /** The rule finds exactly what the records of the address book link, each by itself. */
  lemma {:induction false} BridgeIff(book: seq<AddressBookEntry>, outlook: map<string, IdentityId>,
                                     whatsapp: map<string, IdentityId>, m: Match)
    ensures m in BridgeMatches(book, outlook, whatsapp) <==>
      exists e :: e in book && BridgeOf(e, outlook, whatsapp) == [m]
    decreases |book|
  {
    if book != [] {
      var (rest, last) := (book[..|book| - 1], book[|book| - 1]);
      assert book == rest + [last];
      BridgeIff(rest, outlook, whatsapp, m);
      assert m in BridgeOf(last, outlook, whatsapp) <==> BridgeOf(last, outlook, whatsapp) == [m];
    }
  }

  // ---------------------------------------------------------------- signature phone

  /** The numbers of every WhatsApp identity flagged as the user's own. */
  function SelfDigits(rows: seq<Row>): set<string> {
    set r | r in rows && r.channel == "whatsapp" && r.isSelf && PhoneDigits(r.handle).Some? ::
      PhoneDigits(r.handle).value
  }

  function SignaturePair(sender: IdentityId, whatsapp: map<string, IdentityId>, digits: string): Match
    requires digits in whatsapp
  {
    Match(Existing(sender), Existing(whatsapp[digits]), "email_signature_phone", false, false)
  }

  function SignatureMatchesOf(sender: IdentityId, phones: seq<string>, whatsapp: map<string, IdentityId>): seq<Match> {
    if phones == [] then []
    else
      var (rest, digits) := (phones[..|phones| - 1], phones[|phones| - 1]);
      SignatureMatchesOf(sender, rest, whatsapp) +
      (if digits in whatsapp then [SignaturePair(sender, whatsapp, digits)] else [])
  }

  function SignatureMatches(messages: seq<SignedMessage>, whatsapp: map<string, IdentityId>): seq<Match> {
    if messages == [] then []
    else
      var (rest, m) := (messages[..|messages| - 1], messages[|messages| - 1]);
      SignatureMatches(rest, whatsapp) +
      (if m.sender.Some? then SignatureMatchesOf(m.sender.value, m.signaturePhones, whatsapp) else [])
  }

  ghost predicate IsSignaturePair(messages: seq<SignedMessage>, whatsapp: map<string, IdentityId>, m: Match) {
    exists s, digits :: s in messages && s.sender.Some? && digits in s.signaturePhones && digits in whatsapp
      && m == Match(Existing(s.sender.value), Existing(whatsapp[digits]), "email_signature_phone", false, false)
  }

  /** The rule finds exactly the pairs of a message's sender and a WhatsApp identity its signature names. */
  lemma {:induction false} SignatureIff(messages: seq<SignedMessage>, whatsapp: map<string, IdentityId>, m: Match)
    ensures m in SignatureMatches(messages, whatsapp) <==> IsSignaturePair(messages, whatsapp, m)
    decreases |messages|
  {
    if messages != [] {
      var (rest, last) := (messages[..|messages| - 1], messages[|messages| - 1]);
      assert messages == rest + [last];
      SignatureIff(rest, whatsapp, m);
      if last.sender.Some? {
        SignerIff(last.sender.value, last.signaturePhones, whatsapp, m);
      }
    }
  }

  lemma {:induction false} SignerIff(sender: IdentityId, phones: seq<string>, whatsapp: map<string, IdentityId>,
                                     m: Match)
    ensures m in SignatureMatchesOf(sender, phones, whatsapp) <==>
      exists digits :: digits in phones && digits in whatsapp && m == SignaturePair(sender, whatsapp, digits)
    decreases |phones|
  {
    if phones != [] {
      var (rest, last) := (phones[..|phones| - 1], phones[|phones| - 1]);
      assert phones == rest + [last];
      SignerIff(sender, rest, whatsapp, m);
    }
  }

  predicate IsNumberOf(r: Row, digits: string) {
    r.channel == "whatsapp" && PhoneDigits(r.handle) == Some(digits)
  }

  ghost predicate IsFirstOf(rows: seq<Row>, digits: string, k: nat) {
    k < |rows| && IsNumberOf(rows[k], digits) && forall j :: 0 <= j < k ==> !IsNumberOf(rows[j], digits)
  }

  /** The table knows a number iff it is not excluded and some row has it; and then it holds the first such row. */
  lemma {:induction false} NumberIsKnownIff(rows: seq<Row>, excluded: set<string>, digits: string)
    ensures digits in WhatsappByDigits(rows, excluded) <==>
      digits !in excluded && exists r :: r in rows && IsNumberOf(r, digits)
    ensures digits in WhatsappByDigits(rows, excluded) ==>
      exists k: nat :: IsFirstOf(rows, digits, k) && rows[k].i == WhatsappByDigits(rows, excluded)[digits]
    decreases |rows|
  {
    if rows != [] {
      var (rest, last) := (rows[..|rows| - 1], rows[|rows| - 1]);
      assert rows == rest + [last];
      NumberIsKnownIff(rest, excluded, digits);
      if digits in WhatsappByDigits(rest, excluded) {
        var k: nat :| IsFirstOf(rest, digits, k) && rest[k].i == WhatsappByDigits(rest, excluded)[digits];
        assert IsFirstOf(rows, digits, k);
      } else if digits in WhatsappByDigits(rows, excluded) {
        assert forall j :: 0 <= j < |rest| ==> rest[j] in rest;
        assert IsFirstOf(rows, digits, |rest|);
      }
    }
  }

  /** No two rows of one scan are the same identity. */
  ghost predicate EachOnce(rows: seq<Row>) {
    forall x, y :: x in rows && y in rows && x.i == y.i ==> x == y
  }

  ghost predicate NeverOwn(rows: seq<Row>, m: Match) {
    && !m.automatic
    && m.a.Existing? && m.b.Existing?
    && (exists r :: r in rows && r.i == m.b.i && r.channel == "whatsapp")
    && forall digits, r :: digits in SelfDigits(rows) && r in rows && r.i == m.b.i ==> !IsNumberOf(r, digits)
  }

  lemma SignatureMatchIsNeverOwn(rows: seq<Row>, sender: IdentityId, digits: string)
    requires EachOnce(rows) && digits in WhatsappByDigits(rows, SelfDigits(rows))
    ensures NeverOwn(rows, SignaturePair(sender, WhatsappByDigits(rows, SelfDigits(rows)), digits))
  {
    NumberIsKnownIff(rows, SelfDigits(rows), digits);
    var k: nat :| IsFirstOf(rows, digits, k) && rows[k].i == WhatsappByDigits(rows, SelfDigits(rows))[digits];
    assert rows[k] in rows;
  }

  /**
    For every store, no pair the signature rule finds has on its WhatsApp side an identity that shares
    its number with any identity flagged as the user's own, with or without a device suffix on either
    side, flagged itself or not; and none of its pairs is ever merged automatically.
   */
  lemma {:induction false} SignatureNeverFindsOwnNumber(rows: seq<Row>, messages: seq<SignedMessage>)
    requires EachOnce(rows)
    ensures forall m :: m in SignatureMatches(messages, WhatsappByDigits(rows, SelfDigits(rows))) ==> NeverOwn(rows, m)
    decreases |messages|
  {
    if messages != [] {
      SignatureNeverFindsOwnNumber(rows, messages[..|messages| - 1]);
      var last := messages[|messages| - 1];
      if last.sender.Some? {
        SignerNeverGetsOwnNumber(rows, last.sender.value, last.signaturePhones);
      }
    }
  }

  lemma {:induction false} SignerNeverGetsOwnNumber(rows: seq<Row>, sender: IdentityId, phones: seq<string>)
    requires EachOnce(rows)
    ensures forall m :: m in SignatureMatchesOf(sender, phones, WhatsappByDigits(rows, SelfDigits(rows))) ==>
      NeverOwn(rows, m)
    decreases |phones|
  {
    if phones != [] {
      SignerNeverGetsOwnNumber(rows, sender, phones[..|phones| - 1]);
      if phones[|phones| - 1] in WhatsappByDigits(rows, SelfDigits(rows)) {
        SignatureMatchIsNeverOwn(rows, sender, phones[|phones| - 1]);
      }
    }
  }

  // ---------------------------------------------------------------- same name within Outlook

  predicate Dedupable(r: Row, candidates: set<IdentityId>) {
    r.channel == "outlook" && !r.isSelf && r.displayName.Some? && r.i in candidates
  }

  function NameOf(r: Row): seq<string> {
    NormalisedName(OrEmpty(r.displayName))
  }

  /** by_name[name]: the eligible rows of one name, in row order. */
  function Namesakes(rows: seq<Row>, name: seq<string>, candidates: set<IdentityId>): seq<Row> {
    if rows == [] then []
    else
      var (rest, r) := (rows[..|rows| - 1], rows[|rows| - 1]);
      Namesakes(rest, name, candidates) + (if Dedupable(r, candidates) && NameOf(r) == name then [r] else [])
  }

  /** The names of eligible rows, each where it first appears. */
  function NamesInOrder(rows: seq<Row>, candidates: set<IdentityId>): seq<seq<string>> {
    if rows == [] then []
    else
      var (names, r) := (NamesInOrder(rows[..|rows| - 1], candidates), rows[|rows| - 1]);
      if Dedupable(r, candidates) && NameOf(r) !in names then names + [NameOf(r)] else names
  }

  function DedupePair(x: Row, y: Row): Match {
    Match(Existing(x.i), Existing(y.i), "outlook_same_channel_dedupe", false, false)
  }

  function WithEach(x: Row, group: seq<Row>): seq<Match> {
    seq(|group|, j requires 0 <= j < |group| => DedupePair(x, group[j]))
  }

  /** for i, for j > i */
  function PairsOf(group: seq<Row>): seq<Match> {
    if group == [] then [] else WithEach(group[0], group[1..]) + PairsOf(group[1..])
  }

  function PairsOfAll(rows: seq<Row>, names: seq<seq<string>>, candidates: set<IdentityId>): seq<Match> {
    if names == [] then []
    else PairsOf(Namesakes(rows, names[0], candidates)) + PairsOfAll(rows, names[1..], candidates)
  }

  function DedupeMatches(rows: seq<Row>, candidates: set<IdentityId>): seq<Match> {
    PairsOfAll(rows, NamesInOrder(rows, candidates), candidates)
  }

  ghost predicate IsPairOf(group: seq<Row>, m: Match) {
    exists i, j :: 0 <= i < j < |group| && m == DedupePair(group[i], group[j])
  }

  lemma PairHasFirst(group: seq<Row>, m: Match)
    requires group != [] && IsPairOf(group, m)
    ensures m in WithEach(group[0], group[1..]) || IsPairOf(group[1..], m)
  {
    var i, j :| 0 <= i < j < |group| && m == DedupePair(group[i], group[j]);
    if i == 0 {
      assert WithEach(group[0], group[1..])[j - 1] == m;
    } else {
      assert m == DedupePair(group[1..][i - 1], group[1..][j - 1]);
    }
  }

  lemma PairWithFirst(group: seq<Row>, m: Match)
    requires group != [] && m in WithEach(group[0], group[1..])
    ensures IsPairOf(group, m)
  {
    var j :| 0 <= j < |group| - 1 && WithEach(group[0], group[1..])[j] == m;
    assert m == DedupePair(group[0], group[j + 1]);
  }

  lemma PairWithoutFirst(group: seq<Row>, m: Match)
    requires group != [] && IsPairOf(group[1..], m)
    ensures IsPairOf(group, m)
  {
    var i, j :| 0 <= i < j < |group| - 1 && m == DedupePair(group[1..][i], group[1..][j]);
    assert m == DedupePair(group[i + 1], group[j + 1]);
  }

  lemma {:induction false} PairsAreOrderedPairs(group: seq<Row>, m: Match)
    ensures m in PairsOf(group) <==> IsPairOf(group, m)
    decreases |group|
  {
    if group != [] {
      hide IsPairOf, WithEach;
      PairsAreOrderedPairs(group[1..], m);
      if IsPairOf(group, m) {
        PairHasFirst(group, m);
      }
      if m in WithEach(group[0], group[1..]) {
        PairWithFirst(group, m);
      } else if IsPairOf(group[1..], m) {
        PairWithoutFirst(group, m);
      }
    }
  }

  lemma {:induction false} NamesAreThose(rows: seq<Row>, candidates: set<IdentityId>, name: seq<string>)
    ensures name in NamesInOrder(rows, candidates) <==> Namesakes(rows, name, candidates) != []
    decreases |rows|
  {
    if rows != [] {
      NamesAreThose(rows[..|rows| - 1], candidates, name);
    }
  }

  lemma {:induction false} PairHasName(rows: seq<Row>, names: seq<seq<string>>, candidates: set<IdentityId>, m: Match)
      returns (name: seq<string>)
    requires m in PairsOfAll(rows, names, candidates)
    ensures name in names && m in PairsOf(Namesakes(rows, name, candidates))
    decreases |names|
  {
    name := names[0];
    if m !in PairsOf(Namesakes(rows, name, candidates)) {
      name := PairHasName(rows, names[1..], candidates, m);
    }
  }

  lemma {:induction false} NamedPairIsFound(rows: seq<Row>, names: seq<seq<string>>, candidates: set<IdentityId>,
                                            m: Match, name: seq<string>)
    requires name in names && m in PairsOf(Namesakes(rows, name, candidates))
    ensures m in PairsOfAll(rows, names, candidates)
    decreases |names|
  {
    if name != names[0] {
      NamedPairIsFound(rows, names[1..], candidates, m, name);
    }
  }

  predicate Named(r: Row, name: seq<string>, candidates: set<IdentityId>) {
    && r.channel == "outlook" && !r.isSelf && r.i in candidates
    && r.displayName.Some? && NormalisedName(r.displayName.value) == name
  }

  /** Two eligible rows of this name, the earlier one first. */
  ghost predicate IsNamedPair(rows: seq<Row>, name: seq<string>, candidates: set<IdentityId>, m: Match) {
    exists i, j :: 0 <= i < j < |rows|
      && Named(rows[i], name, candidates) && Named(rows[j], name, candidates)
      && m == Match(Existing(rows[i].i), Existing(rows[j].i), "outlook_same_channel_dedupe", false, false)
  }

  lemma {:induction false} NamesakeIff(rows: seq<Row>, name: seq<string>, candidates: set<IdentityId>, r: Row)
    ensures r in Namesakes(rows, name, candidates) <==> r in rows && Named(r, name, candidates)
    decreases |rows|
  {
    if rows != [] {
      assert rows == rows[..|rows| - 1] + [rows[|rows| - 1]];
      NamesakeIff(rows[..|rows| - 1], name, candidates, r);
    }
  }

  lemma PairOfLonger(group: seq<Row>, last: Row, m: Match)
    ensures IsPairOf(group + [last], m) <==>
      IsPairOf(group, m) || exists x :: x in group && m == DedupePair(x, last)
  {
    var longer := group + [last];
    if IsPairOf(longer, m) {
      var i, j :| 0 <= i < j < |longer| && m == DedupePair(longer[i], longer[j]);
      assert j < |group| ==> m == DedupePair(group[i], group[j]);
      assert longer[i] in group;
    }
    if IsPairOf(group, m) {
      var i, j :| 0 <= i < j < |group| && m == DedupePair(group[i], group[j]);
      assert m == DedupePair(longer[i], longer[j]);
    }
    if x :| x in group && m == DedupePair(x, last) {
      var i :| 0 <= i < |group| && group[i] == x;
      assert m == DedupePair(longer[i], longer[|group|]);
    }
  }

  lemma NamedPairOfLonger(rows: seq<Row>, last: Row, name: seq<string>, candidates: set<IdentityId>, m: Match)
    ensures IsNamedPair(rows + [last], name, candidates, m) <==>
      || IsNamedPair(rows, name, candidates, m)
      || (Named(last, name, candidates)
          && exists x :: x in rows && Named(x, name, candidates) && m == DedupePair(x, last))
  {
    hide Named;
    var longer := rows + [last];
    if IsNamedPair(longer, name, candidates, m) {
      var i, j :| 0 <= i < j < |longer|
        && Named(longer[i], name, candidates) && Named(longer[j], name, candidates)
        && m == DedupePair(longer[i], longer[j]);
      assert j < |rows| ==> m == DedupePair(rows[i], rows[j]);
      assert longer[i] in rows;
    }
    if IsNamedPair(rows, name, candidates, m) {
      var i, j :| 0 <= i < j < |rows|
        && Named(rows[i], name, candidates) && Named(rows[j], name, candidates) && m == DedupePair(rows[i], rows[j]);
      assert m == DedupePair(longer[i], longer[j]);
    }
    if x :| x in rows && Named(last, name, candidates) && Named(x, name, candidates) && m == DedupePair(x, last) {
      var i :| 0 <= i < |rows| && rows[i] == x;
      assert m == DedupePair(longer[i], longer[|rows|]);
    }
  }

  lemma {:induction false} NamesakePairIff(rows: seq<Row>, name: seq<string>, candidates: set<IdentityId>, m: Match)
    ensures IsPairOf(Namesakes(rows, name, candidates), m) <==> IsNamedPair(rows, name, candidates, m)
    decreases |rows|
  {
    if rows != [] {
      hide IsPairOf, IsNamedPair;
      var (rest, last) := (rows[..|rows| - 1], rows[|rows| - 1]);
      assert rows == rest + [last];
      var group := Namesakes(rest, name, candidates);
      assert Namesakes(rows, name, candidates) == if Named(last, name, candidates) then group + [last] else group;
      hide Namesakes, Named, DedupePair;
      NamesakePairIff(rest, name, candidates, m);
      NamedPairOfLonger(rest, last, name, candidates, m);
      PairOfLonger(group, last, m);
      forall x ensures x in group <==> x in rest && Named(x, name, candidates) {
        NamesakeIff(rest, name, candidates, x);
      }
    }
  }

  /** The rule finds exactly the pairs of an eligible row and a later one with the same normalised name. */
  lemma DedupeIff(rows: seq<Row>, candidates: set<IdentityId>, m: Match)
    ensures m in DedupeMatches(rows, candidates) <==> exists name :: IsNamedPair(rows, name, candidates, m)
  {
    hide IsNamedPair;
    if m in DedupeMatches(rows, candidates) {
      var name := PairHasName(rows, NamesInOrder(rows, candidates), candidates, m);
      PairsAreOrderedPairs(Namesakes(rows, name, candidates), m);
      NamesakePairIff(rows, name, candidates, m);
    }
    if name :| IsNamedPair(rows, name, candidates, m) {
      NamesakePairIff(rows, name, candidates, m);
      PairsAreOrderedPairs(Namesakes(rows, name, candidates), m);
      NamesAreThose(rows, candidates, name);
      NamedPairIsFound(rows, NamesInOrder(rows, candidates), candidates, m, name);
    }
  }

  /** Fewer identities to choose from give fewer pairs, never other ones. */
  lemma FewerCandidatesFewerPairs(rows: seq<Row>, few: set<IdentityId>, many: set<IdentityId>)
    requires few <= many
    ensures forall m :: m in DedupeMatches(rows, few) ==> m in DedupeMatches(rows, many)
  {
    forall m | m in DedupeMatches(rows, few) ensures m in DedupeMatches(rows, many) {
      DedupeIff(rows, few, m);
      DedupeIff(rows, many, m);
      var name :| IsNamedPair(rows, name, few, m);
      assert IsNamedPair(rows, name, many, m);
    }
  }

  // ---------------------------------------------------------------- LinkedIn name correlation

  predicate SameName(c: Connection, r: Row) {
    && Present(c.firstName) && Present(c.lastName)
    && (r.channel == "outlook" || r.channel == "whatsapp") && r.displayName.Some?
    && NameOf(r) == NormalisedName(OrEmpty(c.firstName) + " " + OrEmpty(c.lastName))
  }

  function Correlation(c: Connection, r: Row): Match {
    Match(Linkedin(c.id, Some(FullName(c))), Existing(r.i), "linkedin_name_company", false, false)
  }

  function CorrelationsOf(c: Connection, rows: seq<Row>): seq<Match> {
    if rows == [] then []
    else
      var (rest, r) := (rows[..|rows| - 1], rows[|rows| - 1]);
      CorrelationsOf(c, rest) +
      (if SameName(c, r) then [Correlation(c, r)] else [])
  }

  function Correlations(connections: seq<Connection>, rows: seq<Row>): seq<Match> {
    if connections == [] then []
    else Correlations(connections[..|connections| - 1], rows) + CorrelationsOf(connections[|connections| - 1], rows)
  }

  ghost predicate IsCorrelation(connections: seq<Connection>, rows: seq<Row>, m: Match) {
    exists c, r :: c in connections && r in rows
      && c.firstName.Some? && c.firstName.value != "" && c.lastName.Some? && c.lastName.value != ""
      && r.channel in {"outlook", "whatsapp"} && r.displayName.Some?
      && NormalisedName(r.displayName.value) == NormalisedName(c.firstName.value + " " + c.lastName.value)
      && m == Match(Linkedin(c.id, Some(Strip(c.firstName.value + " " + c.lastName.value))), Existing(r.i),
                    "linkedin_name_company", false, false)
  }

  /** The rule finds exactly the pairs of a connection and an identity with the same normalised name. */
  lemma {:induction false} CorrelationIff(connections: seq<Connection>, rows: seq<Row>, m: Match)
    ensures m in Correlations(connections, rows) <==> IsCorrelation(connections, rows, m)
    decreases |connections|
  {
    if connections != [] {
      var (rest, last) := (connections[..|connections| - 1], connections[|connections| - 1]);
      assert connections == rest + [last];
      CorrelationIff(rest, rows, m);
      CorrelationOfIff(last, rows, m);
    }
  }

  lemma CorrelationSources(connections: seq<Connection>, rows: seq<Row>, m: Match) returns (c: Connection, r: Row)
    requires IsCorrelation(connections, rows, m)
    ensures c in connections && r in rows && SameName(c, r) && m == Correlation(c, r)
  {
    c, r :| c in connections && r in rows
      && c.firstName.Some? && c.firstName.value != "" && c.lastName.Some? && c.lastName.value != ""
      && r.channel in {"outlook", "whatsapp"} && r.displayName.Some?
      && NormalisedName(r.displayName.value) == NormalisedName(c.firstName.value + " " + c.lastName.value)
      && m == Match(Linkedin(c.id, Some(Strip(c.firstName.value + " " + c.lastName.value))), Existing(r.i),
                    "linkedin_name_company", false, false);
  }

  lemma CorrelationFrom(connections: seq<Connection>, rows: seq<Row>, c: Connection, r: Row)
    requires c in connections && r in rows && SameName(c, r)
    ensures IsCorrelation(connections, rows, Correlation(c, r))
  {
  }

  lemma {:induction false} CorrelationOfIff(c: Connection, rows: seq<Row>, m: Match)
    ensures m in CorrelationsOf(c, rows) <==> exists r :: r in rows && SameName(c, r) && m == Correlation(c, r)
    decreases |rows|
  {
    if rows != [] {
      var (rest, last) := (rows[..|rows| - 1], rows[|rows| - 1]);
      assert rows == rest + [last];
      CorrelationOfIff(c, rest, m);
    }
  }
}
