/**
  The checks of adapters/resolution/safety.py that stand between a rule's match and an automatic
  merge, as predicates over the store.
 */
module SafetyChecks {
  import opened Text
  import opened Wrappers
  import opened StoreModel

  const MAX_CLUSTER_SIZE := 8

  predicate IsWordChar(c: char) {
    'a' <= c <= 'z' || 'A' <= c <= 'Z' || '0' <= c <= '9' || c == '_' || c >= '\U{0080}'
  }

  /** The lower-cased runs of word characters of `text`, where `word` is the run being read. */
  function TokensFrom(text: string, word: string): set<string> {
    if text == [] then
      if word == [] then {} else {word}
    else if IsWordChar(text[0]) then
      TokensFrom(text[1..], word + [LowerChar(text[0])])
    else
      (if word == [] then {} else {word}) + TokensFrom(text[1..], [])
  }

  function Tokens(text: string): set<string> {
    TokensFrom(text, [])
  }

  predicate NamesContradict(x: Option<string>, y: Option<string>) {
    && x.Some? && y.Some?
    && Tokens(x.value) != {} && Tokens(y.value) != {}
    && Tokens(x.value) !! Tokens(y.value)
  }

  /** Some display name of one contact contradicts some display name of the other. */
  predicate ContactsContradict(s: Store, a: IdentityId, b: IdentityId)
    requires a in s.identities && b in s.identities
  {
    exists i, j :: i in s.Contact(s.KeyOf(a)) && j in s.Contact(s.KeyOf(b))
      && NamesContradict(s.identities[i].displayName, s.identities[j].displayName)
  }

  /** Some candidate, of any status, already names this pair in either order. */
  predicate HasCandidate(candidates: seq<Candidate>, a: IdentityId, b: IdentityId) {
    exists c :: 0 <= c < |candidates|
      && ((candidates[c].a == a && candidates[c].b == b) || (candidates[c].a == b && candidates[c].b == a))
  }

  /** What an automatic rule decides about a pair that has no candidate yet. */
  function AutomaticStatus(s: Store, a: IdentityId, b: IdentityId, blocked: bool): Status
    requires a in s.identities && b in s.identities
  {
    if blocked || ContactsContradict(s, a, b) || |Joined(s, a, b)| > MAX_CLUSTER_SIZE then Pending
    else Confirmed
  }
}
