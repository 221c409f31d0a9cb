/**
  What a contact key handed out earlier means later: _resolve_contact_key follows an identity into
  whatever contact it is in now, and follows nothing else.
 */
module ContactKeys {
  import opened Wrappers
  import opened StoreModel
  import opened SafetyChecks
  import opened Runs

  /** r is what a key stands for now: the contact of the identity it names, or else the key itself. */
  ghost predicate StandsFor(s: Store, key: ContactKey, r: ContactKey) {
    if key.IdentityKey? && key.identity in s.identities then key.identity in s.Contact(r) else r == key
  }

  /** A key stands for one key only, which is the one that Resolve finds. */
  lemma ResolveIff(s: Store, key: ContactKey, r: ContactKey)
    ensures StandsFor(s, key, r) <==> r == Resolve(s, key)
  {
    if key.IdentityKey? && key.identity in s.identities {
      assert key.identity in s.Contact(s.KeyOf(key.identity));
    }
  }

  lemma StepKeepsIdentities(s: Store, e: Event)
    requires Possible(s, e)
    ensures s.identities.Keys <= Step(s, e).identities.Keys
  {
    hide AutomaticStatus, Joined, Survivor;
  }

  lemma {:induction false} RunKeepsIdentities(s: Store, run: seq<Event>)
    requires IsRun(s, run)
    ensures s.identities.Keys <= Final(s, run).identities.Keys
    decreases |run|
  {
    if run != [] {
      StepKeepsIdentities(s, run[0]);
      RunKeepsIdentities(Step(s, run[0]), run[1..]);
    }
  }

  /**
    A key taken from an identity while it was unresolved goes on showing that identity, whatever has
    happened since; resolving it again changes nothing; and two such keys meet exactly when the two
    identities have become one contact.
   */
  lemma IdentityKeysNeverGoStale(s: Store, run: seq<Event>, i: IdentityId, j: IdentityId)
    requires IsRun(s, run) && i in s.identities && j in s.identities
    ensures var t := Final(s, run);
      && i in t.identities && j in t.identities
      && i in t.Contact(Resolve(t, IdentityKey(i)))
      && Resolve(t, Resolve(t, IdentityKey(i))) == Resolve(t, IdentityKey(i))
      && (Resolve(t, IdentityKey(i)) == Resolve(t, IdentityKey(j)) <==> t.KeyOf(i) == t.KeyOf(j))
  {
    RunKeepsIdentities(s, run);
    var t := Final(s, run);
    ResolveIff(t, IdentityKey(i), Resolve(t, IdentityKey(i)));
  }

  /** A person's key is not followed: once its person is absorbed, it shows nobody. */
  lemma AbsorbedPersonsKeyShowsNobody(s: Store, a: IdentityId, b: IdentityId, rule: string, kind: string,
                                      newPerson: PersonId, names: Names, gone: PersonId)
    requires a in s.identities && b in s.identities && Absorbed(s, a, b) == Some(gone)
    ensures var t := Merged(s, a, b, rule, kind, newPerson, names);
      t.Contact(Resolve(t, PersonKey(gone))) == {}
  {
    var t := Merged(s, a, b, rule, kind, newPerson, names);
    forall i | i in t.identities ensures t.KeyOf(i) != PersonKey(gone) {
      assert i in s.Contact(s.KeyOf(i));
    }
  }
}
