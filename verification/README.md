# Verified model of the identity-resolution store

A communications store keeps one row per handle (`identity`). Identity resolution decides which handles are one
human: a merge gives identities a common `person`, logs what it did in `merge_log`, and an undo takes one logged
merge back. Rules propose pairs; some pairs are merged automatically behind safety checks, the others wait in
`link_candidate` for a reviewer. Everything shown per contact is grouped by `coalesce(person_id, id)`.

This project models that store and the code around it, and proves what holds over whole runs: the contacts are the
equivalence closure of the merges in force and the handles added by hand, `merged_into` stays a forest, undo is exact
and puts back what a reviewer had confirmed, the review queue merges once per confirmation, automatic merges stay small
and consistent, per-contact rows and statistics are conserved, and running the whole list again adds only what is new
since. Six secondary components have their own theorems: the token-budget loop of the AI brief, the Wilson release gate,
the cached fact extractor, the envelope writer, the lid-to-phone merge, and the HTML body stripper.

## How the model is organised

- `StoreModel`, `SafetyChecks`, `Naming`, `Runs`: the tables as values, the effect of one merge, undo, proposal,
  review, name change or contact-panel request, and runs of such events in any order.
- `MergeStore`: the same tables as fields of the class `IdentityDatabase`. Its methods run the statements of the
  Python code one by one; each is proved to have exactly the effect the value-level functions give it, so the
  theorems about runs are theorems about these methods. What each writes, column by column and without these functions,
  is in `Effects`, and is part of each method's contract.
- `PersonForest`, `MergeInversion`, `ContactKeys`, `ReviewQueue`, `UndoneReviews`, `AutomaticMerges`, `SideTables`, `ContactStats`: the
  theorems about runs.
- `LinkClosure`, `TreeUpkeep`, `GraftedTrees`, `SplitTrees`, `ClosureRuns`, `UndoExactness`: the closure proof. It keeps
  one tree per contact beside the tables: a node per merge in force, its leaves the identities the merge joined, and
  seats for identities added by hand. A merge grafts two trees, an added handle hangs a leaf, and a careful undo splits
  a tree at its root. `UndoCounterexamples` holds the runs on which the gate fails.
- `RuleMatching`, `RuleRuns`, `RuleRunner`, `RuleEvents`: which pairs the five rules find, what running them does to the
  store, the rules as loops over rows and dictionaries that do exactly that, and each rule's run as a run of events.
  `NewMatches`: what a later reading of the tables makes a rule find that an earlier one did not. `RuleFindings`: exactly
  which pairs each rule is to find and which of them it may merge without asking; `RuleTexts`: what the rules read off
  addresses, handles and names.
- `StructuredFacts`, `ResolutionList`, `ResolutionNews`, `ResolutionRunner`: the fact extractor, the list of six entries
  over one identity table, what a second run of it adds, and the loop that runs it with the extractor's caches and a
  rollback for an entry that raises.
  `Connections` is the table that rules and extractor both read.
- `Quality`, `BriefBudget`, `EnvelopeWriter`, `LidMerge`, `StripHtml`: the secondary components.

Fresh ids, the row a query without an order returns first, what naming chooses between equals, and timestamps are
parameters or left open in a contract, so every theorem holds for all of them. A raised exception is a result value and
rolls its transaction back. Identity ids and person ids are random UUIDs and therefore disjoint: a contact key is
either an identity or a person. `merged_at` is a `clock_timestamp()`, so a row's place in the log stands for it.

## Where the code and its documentation part

- The reversible-merge design (docs/superpowers/specs/2026-09-09-reversible-identity-merge-design.md, lines 148-151)
  says that undoing in order always works. The gate counts reversed rows too, so undoing newest first succeeds if and
  only if no two of the merges have the same survivor (`MergeInversion.NewestFirstUndoIff`), and a refused row stays
  refused whatever happens next (`MergeInversion.RefusedForever`). `UndoCounterexamples.OrderedUndoGetsStuck` and
  `UndoCounterexamples.NewestFirstFails` are a run of two merges on which the documented order gets stuck for good.
- The gate checks neither that a row is still unreversed nor that its survivor still stands.
  `UndoExactness.AcceptedUndoIsExactIff` shows that an accepted undo is exact if and only if both hold, and two runs
  in `UndoCounterexamples` show what goes wrong otherwise. The runs of the closure theorem therefore contain such
  careful undos only; the forest theorem has no such condition.
- Automatic merges are meant never to join contradicting names, but a name filled in after the merge is not checked: a
  contact stays consistent if and only if the new name contradicts none in it (`AutomaticMerges.FilledNameIsSafeIff`;
  `AutomaticMerges.LateNameContradicts` is a run on which it does).
- Side-table rows are relocated by merges only. An undo or an added handle can leave a row under a key that shows
  nobody, exactly when `SideTables.UndoOrphansIff` and `SideTables.AddedHandleOrphansIff` say;
  `UndoCounterexamples.UndoOrphansBrief` and `UndoCounterexamples.AddedHandleOrphansBrief` are a run each.
- The walk back from a quote or signature marker looks for the previous `<` and for nothing else. It ends where the
  marker's own tag begins if and only if no `<` precedes the marker at all, or exactly one has since the last `>`
  (`StripHtml.CutIsOwnStartIff`). It goes too far when the marker is itself a tag (`<blockquote`) or text behind a closed
  tag, and drops the text in between (`StripHtml.TextBeforeBlockquoteIsLost`, `StripHtml.TextBeforeTextMarkerIsLost`). It
  stops too early when an attribute before the marker contains `<`, and leaves the beginning of the tag in the text
  (`StripHtml.BrokenTagSurvives`, `StripHtml.AttributeSplitsTag`).
- Given one handle as both lid and phone, the lid merge deletes that identity's participant rows
  (`LidMerge.RepointingIsSubstitutionIff` says exactly when it is the substitution it is meant to be,
  `LidMerge.OneHandleTwiceLosesRows` is an input). `merge` accepts any two strings; resolve_lids.js writes pairs of a lid
  and the phone handle looked up for it.
- Where a number belongs to two WhatsApp rows, the bridge and signature rules take the one their query returns first, and
  the query asks for no order: the same rows in another order give another pair (`NewMatches.ReorderedRowsFindAnother`).
- `_propose_and_maybe_confirm` documents that only a rejected candidate stops a new row; any candidate does.
- A reported input-token count that is negative, or too large or otherwise unfit for its column, makes the brief's own
  status row fail; the model reports this as `StorageRefused`.

## Model

| member | source | states |
|---|---|---|
| MergeStore.IdentityDatabase.ApplyMerge | adapters/resolution/merge.py:22-130 | Raises without writing on a blank rule, an unknown decision path or a missing identity. Otherwise everybody shown with a or b is at the survivor, an absorbed person forwards to it, no other row changes, one log row records pair, survivor, absorbed, moved set and previous names, the survivor's names are selected from everybody together, and all three side tables are relocated from both old keys |
| MergeStore.IdentityDatabase.Converge | adapters/resolution/merge.py:44-82 | a's person survives, else b's, else a new one; b's is absorbed when both have different ones; who moves is whoever is shown with either and not at the survivor; and the tables after the union update |
| MergeStore.IdentityDatabase.RecomputeNames | adapters/resolution/merge.py:116-123 | Only the person's names change, to a selection from every identity it then holds |
| MergeStore.IdentityDatabase.RelocateSideTables | adapters/resolution/merge.py:125-185 | However the stale keys are visited: nothing is left under one, the survivor's brief and latest attempt are the newest of all rows involved, hidden is their disjunction, other keys are untouched |
| MergeStore.IdentityDatabase.UndoMerge | adapters/resolution/merge.py:188-252 | Refuses without writing exactly when the row is missing or a later row has the same survivor; otherwise the logged identities go back to the absorbed person or to none, the absorbed person is a root, the survivor has its names back, the row is marked, and of the candidates exactly the confirmed ones of the row's ordered pair change: to retired if by "linkedin_same_channel_dedupe", else to pending |
| MergeStore.IdentityDatabase.Invert | adapters/resolution/merge.py:219-252 | The same of the statements behind the gate |
| UndoneReviews.UndoneConfirmationReopens | adapters/resolution/merge.py:234-252 | Round trip: confirming a pending candidate of an active rule and undoing the row this logged, which the gate accepts, restores identities, the persons there were and the whole candidate table, and the candidate can be confirmed again |
| UndoneReviews.UndoneRetiredRuleStaysRetired | adapters/resolution/merge.py:239-248 | The same with the retired rule leaves the candidate retired in every continuation |
| UndoneReviews.UndoneProposalWaits | adapters/resolution/merge.py:234-252 | Undoing an automatic merge that was just made leaves the pair to a reviewer, and everybody where they were |
| PersonForest.ReachableStoresAreForests | adapters/resolution/merge.py:51-82 | After any interleaving of merges, accepted undos (out of order or repeated), links, added handles, proposals and reviews: no identity is at a person with merged_into set, no person forwards to itself, every person reaches a root |
| PersonForest.RunKeepsSound | db/migrations/0006_merge_log.sql:5-30 | The foreign keys of identity, person and merge_log hold in every reachable store |
| MergeInversion.UnmergeRestores | adapters/resolution/merge.py:219-232 | Undoing the last merge restores every person_id, every merged_into and the names of every earlier person, in every branch, leaving at most an empty extra person |
| MergeInversion.UnwindingRestores | adapters/resolution/merge.py:51-123 | The same for any sequence of merges unwound newest first |
| MergeInversion.NewestFirstUndoIff | docs/superpowers/specs/2026-09-09-reversible-identity-merge-design.md:148-151 | Undoing a whole run newest first through the gate succeeds iff no two of its merges share a survivor, and then restores the store: the design's claim, with its exact condition |
| MergeInversion.RefusedForever | adapters/resolution/merge.py:208-217 | A row refused for a later merge stays refused in every continuation |
| MergeInversion.RunGrowsLog | db/migrations/0006_merge_log.sql:5-17 | The log only grows; rows change by being marked reversed and in no other way |
| ClosureRuns.ContactsAreClosureOfLog | adapters/resolution/merge.py:44-110 | After any careful run, added handles included, two identities have one contact key iff the pairs of unreversed rows, the contacts the run started from and the persons to which identities were added by hand connect them |
| ClosureRuns.WithoutHandlesNothingIsAttached | adapters/contact_editor.py:154-173 | Only add_contact_handle attaches an identity without a log row: a run without it leaves no attachment to account for |
| LinkClosure.WithoutHandlesOnlyPairsLink | adapters/resolution/merge.py:83-110 | Without attachments, two identities are linked iff they were one contact at the start or are the pair of an unreversed row |
| SplitTrees.UndoneRowIsRoot | adapters/resolution/merge.py:204-217 | A row in force that the gate lets through at a standing survivor is the newest merge of its contact: the root of its merge tree |
| UndoExactness.AcceptedUndoIsExactIff | adapters/resolution/merge.py:204-223 | In any careful run, added handles included, for a row that moved somebody and that the gate accepts: all logged identities are at the survivor iff the row is unreversed and the survivor is a root |
| UndoCounterexamples.RepeatedUndoBreaksClosure | adapters/resolution/merge.py:208-217 | A run in which undoing one row twice is accepted and separates a pair whose merge is in force |
| UndoCounterexamples.OrderedUndoGetsStuck | docs/superpowers/specs/2026-09-09-reversible-identity-merge-design.md:148-151 | Two merges into one contact; the later one is undone first, as documented, and the earlier row is refused then and after every continuation |
| UndoCounterexamples.NewestFirstFails | docs/superpowers/specs/2026-09-09-reversible-identity-merge-design.md:148-151 | The same two merges undone newest first through the gate: the second undo fails |
| UndoCounterexamples.UndoUnderAbsorbedSurvivorBreaksClosure | docs/superpowers/plans/2026-09-09-reversible-identity-merge.md:525-535 | A run in which undoing a row whose survivor was absorbed later is accepted and separates a pair whose merge is in force |
| ReviewQueue.ConfirmedPairsAreTogether | adapters/resolution/merge.py:243-252 | After any careful run, added handles included, the two identities of every confirmed candidate are one contact |
| ReviewQueue.QueueLaws | adapters/resolution/safety.py:49-67 | Over any run: rejected and retired candidates never change, no candidate disappears or changes pair, no unordered pair has two candidates |
| ReviewQueue.OneMergePerConfirmation | scripts/onboarding/app.py:512-543 | However confirm requests race and undos interleave, a pair's review merges in the log are as many as its candidate's moves from pending to confirmed |
| MergeStore.IdentityDatabase.ConfirmCandidate | scripts/onboarding/app.py:529-543 | Goes through exactly for a pending row with a rule and both identities: that row is confirmed, its pair merged and logged as "review", names and side tables follow; otherwise nothing is written, a failing merge rolls the claim back |
| MergeStore.IdentityDatabase.RejectCandidate | scripts/onboarding/app.py:545-549 | Only a pending candidate becomes rejected; nothing else changes |
| MergeStore.IdentityDatabase.ClusterSizeAfterMerge | adapters/resolution/safety.py:29-46 | The loop's count is the number of identities of both contacts together |
| MergeStore.IdentityDatabase.ClusterNamesContradict | adapters/resolution/safety.py:89-113 | True iff some name of one contact contradicts some name of the other |
| MergeStore.IdentityDatabase.HasExistingCandidate | adapters/resolution/safety.py:49-67 | True iff a candidate of any status names the pair in either order |
| MergeStore.IdentityDatabase.ProposeAndMaybeConfirm | adapters/resolution/rules.py:54-90 | A row is written exactly when no candidate names the pair in either order. If the pair is blocked, names of the two contacts clash or more than eight identities would come together, it is pending and nothing else changes; otherwise it is confirmed and the pair merged, with one "automatic" log row, names and side tables following |
| RuleFindings.NoRoleAddressIsMerged | adapters/resolution/rules.py:124-134 | Every merge that a run of any rule logs is automatic, by the email or the bridge rule, and of an Outlook identity whose address is no role address |
| RuleTexts.RoleAddressIff | adapters/resolution/safety.py:12-26 | An address is a role address iff what precedes its first @ is, in whatever case, one of the ten words |
| RuleTexts.NamesContradictIff | adapters/resolution/safety.py:70-86 | Two names contradict iff both are given, each has a maximal run of word characters, and none of one is one of the other but for case |
| AutomaticMerges.PredictedSizeIsExact | adapters/resolution/safety.py:29-46 | The set whose size the check computes is exactly the contact the merge then builds |
| AutomaticMerges.AutomaticContactsAreSafe | adapters/resolution/rules.py:69-90 | From unresolved identities, over any run of automatic and queued proposals, arrivals, rejections, careful undos, renamed contacts and missing names filled in by fitting ones: no contact exceeds eight identities and no two names in one contradict |
| AutomaticMerges.FilledNameIsSafeIff | adapters/resolution/linkedin_correlation.py:38-46 | Filling in a missing name, which the code does unchecked, keeps all contacts free of contradictions iff the name contradicts none of its own contact |
| AutomaticMerges.LateNameContradicts | adapters/resolution/safety.py:89-113 | A run of one automatic merge and one filled-in name after which two names of one contact contradict |
| AutomaticMerges.RenamingKeepsSafe | adapters/contact_editor.py:103-108 | Renaming a contact keeps every contact small and free of contradictions |
| AutomaticMerges.ContradictionIsNotTransitive | adapters/resolution/safety.py:73-86 | Three names of which only the outer two contradict: comparing the proposed pair alone would not do |
| SideTables.RelocationKeepsNewest | adapters/resolution/merge.py:133-185 | Relocating stale keys in any order keeps exactly the newest row under the survivor and none under a stale key |
| SideTables.VisitingOrderIsIrrelevant | adapters/resolution/merge.py:125-128 | With distinct times, every visiting order of the Python set gives the same table |
| SideTables.MergedContactsInheritNewest | adapters/resolution/merge.py:39-42 | Over any run of merges no row is orphaned, and each contact's row is the newest of all rows its original contacts had |
| SideTables.MergedContactsInheritHidden | adapters/resolution/merge.py:154-163 | Over any run of merges a contact is hidden iff one of the contacts joined in it was |
| SideTables.UndoOrphansIff | adapters/resolution/merge.py:219-232 | Whatever happened since its merge, an accepted undo leaves a side-table row under a dead key iff some key with a row shows only identities of the log row that then move elsewhere |
| SideTables.IntactUndoOrphansIff | adapters/resolution/merge.py:219-232 | With all logged identities still at the survivor: iff the survivor has a row and loses its last identity |
| SideTables.AddedHandleOrphansIff | adapters/contact_editor.py:160-168 | An added handle leaves a side-table row under a dead key iff the representative was unresolved and had a row |
| UndoCounterexamples.UndoOrphansBrief | adapters/resolution/merge.py:219-232 | One merge and its undo leave a brief under the key of a person that shows nobody |
| UndoCounterexamples.AddedHandleOrphansBrief | adapters/contact_editor.py:160-168 | One added handle leaves the representative's brief under a key that shows nobody |
| ContactStats.StatsExist | db/migrations/0002_graph_views.sql:22-31 | The counts and dates of every contact's row of the view exist and are determined by its joined rows; a contact without rows has none |
| ContactStats.OneMoreMessage | db/migrations/0002_graph_views.sql:22-31 | A new message adds one to the total of the contact of whoever takes part, and to sent or received by its direction, and widens the dates; a message of one's own identity, and every other contact, leaves the row as it is |
| ContactStats.LabelsExist | db/migrations/0002_graph_views.sql:16-21 | So do its display name, channels and handles, under any collation that tells strings apart: the channels and the handles of the rows' identities |
| ContactStats.MergingUnitesLabels | db/migrations/0002_graph_views.sql:16-21 | A merge shows under the survivor the channels and handles of both contacts and the later of their names, nothing under a key left behind, and changes no other contact |
| ContactStats.MergingConservesStats | db/migrations/0002_graph_views.sql:22-31 | A merge adds the counts of the distinct contacts, takes minimum and maximum of first and last contact, empties keys left behind and changes no other contact |
| ContactStats.GrandTotalsAreInvariant | db/migrations/0002_graph_views.sql:22-31 | Sent, received and total counts summed over all contacts are unchanged by any run whatever, arrivals and added handles included, of a store that holds every participant's identity |
| ContactStats.Reciprocity | db/migrations/0002_graph_views.sql:38-46 | Null iff nothing was sent or received; else within [0, 1], times the greater count the lesser one, 1 iff equal, 0 iff one-sided |
| Naming.SelectNames | adapters/resolution/naming.py:22-43 | No names give an empty one; without a name-like one any stripped name; else a longest name-like name, and as preferred name a longest of the others, if there are others |
| Naming.SelectionIsDetermined | adapters/resolution/naming.py:39-43 | When name-like names differ in length, row order cannot change the choice |
| Naming.ChosenNamesAreGiven | adapters/resolution/naming.py:22-43 | Every chosen name is a display name without the white space around it; none is chosen only if all are blank; a preferred name, and the primary one beside it, look like names |
| Naming.NameLikeIff | adapters/resolution/naming.py:11-19 | A stripped text looks like a name iff every maximal run of other than white space starts with a letter and has only letters, apostrophes and hyphens |
| MergeStore.IdentityDatabase.ResolveContactKey | adapters/contact_editor.py:29-41 | The contact under the result shows the identity that the key names; any other key is returned as it is |
| ContactKeys.ResolveIff | adapters/contact_editor.py:29-41 | Those two clauses have one solution: a key stands for one contact key and no other |
| ContactKeys.IdentityKeysNeverGoStale | adapters/contact_editor.py:29-41 | In every later store of any run, an identity's own key resolves to the contact that shows it, resolving twice is resolving once, and two such keys resolve alike iff the identities are one contact |
| ContactKeys.AbsorbedPersonsKeyShowsNobody | adapters/contact_editor.py:36-41 | A person's key is not followed: after a merge that absorbs the person it shows nobody |
| MergeStore.IdentityDatabase.UpdateContactName | adapters/contact_editor.py:103-108 | Exactly the identities of the contact that the key resolves to get the name; nothing else changes |
| MergeStore.IdentityDatabase.LinkContact | adapters/contact_editor.py:111-126 | Raises iff the key names no contact; else some member of it is merged with the other identity, logged as a manual link, names and side tables following |
| MergeStore.IdentityDatabase.AddContactHandle | adapters/contact_editor.py:143-174 | Added iff the handle is new and the key names a contact; the new identity joins the contact's person, which is created with the member's name if there was none |
| RuleMatching.SignatureNeverFindsOwnNumber | adapters/resolution/rules.py:252-282 | Every pair the signature rule finds is a queued one between stored identities whose WhatsApp side has no number of a self-flagged row |
| RuleMatching.EmailMatchIff | adapters/resolution/rules.py:94-121 | The rule finds exactly the pairs of an Outlook identity and a connection whose lower-cased address is its handle |
| RuleMatching.NumberIsKnownIff | adapters/resolution/rules.py:252-261 | A number is in the dictionary iff it is not excluded and some WhatsApp row has it, and then with the first such row |
| RuleMatching.FirstKnownIsFirst | adapters/resolution/rules.py:164-178 | The key found is the first of the list that the dictionary has; none is found iff it has none of them |
| RuleMatching.SignatureIff | adapters/resolution/rules.py:264-273 | The rule finds exactly the pairs of a message's sender and the WhatsApp identity of a number in its signature |
| RuleMatching.DedupeIff | adapters/resolution/rules.py:324-336 | The rule finds exactly the pairs of an eligible row and a later one with the same normalised name |
| RuleMatching.CorrelationIff | adapters/resolution/linkedin_correlation.py:29-36 | The rule finds exactly the pairs of a connection with both names and a named Outlook or WhatsApp identity with the same normalised name, to be queued and never merged |
| RuleMatching.FewerCandidatesFewerPairs | adapters/resolution/rules.py:312-336 | With fewer eligible identities the dedupe rule finds a subset of the pairs |
| RuleFindings.RuleFindsIff | adapters/resolution/rules.py:93-353 | For each of the five rules, over any store and reading: a pair is found iff the rows satisfy its condition, which is written out per rule (last Outlook row of an address, first WhatsApp row of a number, own numbers excluded, normalised names, unresolved and not automated), with its rule name, and blocked iff the address is a role address |
| RuleFindings.AutomaticIff | adapters/resolution/linkedin_correlation.py:1-3 | A found pair may be merged without asking iff its rule is the email or the bridge rule |
| RuleFindings.AskingRulesOnlyQueue | adapters/resolution/linkedin_correlation.py:50-62 | Over every store, running the correlation, dedupe or signature rule leaves log, persons and every person_id as they are and appends pending candidates only |
| RuleTexts.PhoneDigitsIff | adapters/resolution/rules.py:31-51 | A handle has these digits iff it is no group's, has an @, and starts with them directly before an @ or a : |
| RuleRuns.SignatureRuleNeverQueuesOwnNumber | adapters/resolution/rules.py:211-282 | Running the signature rule merges and moves nothing, adds only pending candidates, and none whose WhatsApp side shares its digits with a self-flagged identity, device suffix or not |
| RuleRuns.QueueOnlyRulesMergeNothing | adapters/resolution/rules.py:292-353 | A rule without automatic matches leaves log, persons and every person_id alone and appends pending candidates only |
| RuleRuns.RuleCounts | adapters/resolution/rules.py:103-136 | A rule's count is the number of candidates it appended; older ones are untouched and no pair gets a second one |
| RuleRuns.MatchesOnlyShrink | adapters/resolution/run.py:37-44 | Over the same scanned rows, connections, records and messages, no growth of the store (merges, reviews, filled names, identities not scanned) makes a rule find a pair it did not find before |
| NewMatches.NewMatchHasNews | adapters/resolution/rules.py:93-336 | Over a later reading of the tables that keeps the earlier rows in their order, a pair that a rule finds was found before, or has news: an identity not scanned before, a new connection, record or message, or an identity whose latest message has stopped being automated |
| NewMatches.OnlyUnsettledWrite | adapters/resolution/safety.py:49-57 | Every candidate and merge a rule's run adds is of a pair that had something left to do when the run began |
| NewMatches.NewNamesakeIsFound | adapters/resolution/linkedin_correlation.py:29-36 | An identity inserted since does make the rule find a pair, once it is scanned |
| NewMatches.ReorderedRowsFindAnother | adapters/resolution/rules.py:153-178 | Two orders of the same rows for which the bridge rule finds different pairs |
| RuleEvents.RuleRunIsRun | adapters/resolution/rules.py:93-353 | Every rule's run, however many merges it makes, is a run of insert, fill-name, propose and queue events, so what holds over runs holds of it |
| ResolutionList.ExtractedIsExtractOne | adapters/resolution/structured_facts.py:53-103 | What the extractor does for a connection to the identity table, its organizations and facts is what it does to tables of its own whose profiles are the LinkedIn rows |
| ResolutionList.ExtractionSettles | adapters/resolution/structured_facts.py:39-103 | On the shared identity table the extractor only adds rows and missing names, touches no candidate and no log row |
| ResolutionList.RunEntriesSettle | adapters/resolution/run.py:37-56 | After the list, whichever entries raised: for every other rule each pair it still finds has its identities, their names and a candidate, and if the extractor did not raise no connection has anything left to extract |
| ResolutionList.SecondRunIsIdle | adapters/resolution/run.py:37-56 | Running again any entry that did not raise, over what the first run read or part of it, changes no identity, name, candidate, merge, organization or fact; if none raised, nor does the whole list of six, whichever entries raise then |
| ResolutionNews.SecondRunAddsOnlyNews | adapters/resolution/run.py:37-56 | A second run of the list that reads its own rows, connections, records and messages, after whatever was added in between, adds no candidate, merge or fact but those with news behind them, or of an entry that raised in the first run |
| RuleRunner.IndexWhatsapp | adapters/resolution/rules.py:256-261 | The dictionary holds, for each number not excluded, the first row with it |
| RuleRunner.GroupByName | adapters/resolution/rules.py:324-328 | by_name holds exactly the eligible rows of each name in row order, its keys in order of first appearance |
| RuleRunner.FindBridge | adapters/resolution/rules.py:159-180 | A contact record gives a pair iff one of its emails and one of its phones is known, and then the first of each |
| RuleRunner.RuleRunner.Upsert | adapters/resolution/linkedin_correlation.py:38-48 | Inserts a LinkedIn identity once, without a person and not as one's own, fills a missing name, never overwrites one, returns its id and touches nothing else |
| RuleRunner.RuleRunner.Decide | adapters/resolution/rules.py:63-90 | A pair that may be merged without asking is proposed as ProposeAndMaybeConfirm proposes; any other gets one pending candidate, or nothing if it has one of any status |
| RuleRunner.RuleRunner.RuleExactEmailMatch | adapters/resolution/rules.py:93-136 | The loop does exactly what RuleRun says and counts the candidates it adds |
| RuleRunner.RuleRunner.RuleContactBridge | adapters/resolution/rules.py:139-192 | The same, with dictionaries filled by loops and first hits found by loops |
| RuleRunner.RuleRunner.RuleSignaturePhone | adapters/resolution/rules.py:211-282 | The same, over messages and the numbers in each signature |
| RuleRunner.RuleRunner.RuleOutlookDedupe | adapters/resolution/rules.py:292-353 | The same, over groups of namesakes and the pairs in each |
| RuleRunner.RuleRunner.RuleLinkedinCorrelation | adapters/resolution/linkedin_correlation.py:20-68 | The same, over connections and named identities, upserting at each match |
| ResolutionRunner.ResolutionRun.CachedIdentity | adapters/resolution/structured_facts.py:63-73 | Skipping the upsert on a named cached identity changes nothing, and the cache still equals the LinkedIn rows of the identity table |
| ResolutionRunner.ResolutionRun.ExtractStructuredFacts | adapters/resolution/structured_facts.py:39-103 | Ends with the database of the version that asks it for every connection; the count is the number of facts inserted |
| ResolutionRunner.ResolutionRun.RunEntryOrRollBack | adapters/resolution/run.py:49-56 | One entry of the list in its own transaction: its whole effect, or if it raises none of it, side tables included |
| ResolutionRunner.ResolutionRun.Run | adapters/resolution/run.py:37-56 | The loop over all six entries, any of which may raise, does exactly what RunEntries says, and the counts add up to the candidates and facts added |
| ResolutionList.ListInOrder | adapters/resolution/run.py:37-56 | A run is the email, bridge, signature, dedupe and correlation rules and then the extractor, each on what the ones before left, except those that raise |
| Quality.WilsonLower | adapters/resolution/quality.py:61-75 | Raises iff the counts are impossible, undefined iff nothing was scored, else the lower solution b of (p - b)^2 = z^2 b (1 - b) / n with 0 <= b <= p: the definition of the Wilson endpoint |
| Quality.BoundSolvesScore | adapters/resolution/quality.py:69-75 | The closed formula solves that equation, for every z and all counts |
| Quality.BoundMeetsMarkIff | adapters/resolution/quality.py:69-75 | For 0 < t < 1 the bound reaches t iff s >= t n and (s - t n)^2 >= z^2 t (1 - t) n |
| Quality.BoundIsConservative | adapters/resolution/quality.py:69-75 | The bound lies between 0 and the plain ratio |
| Quality.OneMoreSameKeepsMet | adapters/resolution/quality.py:184-185 | One more "same" pair never turns a met mark into a missed one |
| Quality.OneMoreDifferentKeepsMissed | adapters/resolution/quality.py:184-185 | One more "different" pair never turns a missed mark into a met one |
| Quality.Gate | adapters/resolution/quality.py:179-186 | Passes iff every checked row has enough scored pairs and meets the mark by its counts; pending iff some row has too few |
| Quality.AutoMergeToleratesNoErrorAtMinimum | adapters/resolution/quality.py:179-186 | At the auto-merge minimum of 400 scored pairs the 0.99 mark is met iff none is graded different |
| BriefBudget.ReductionKeepsTheEnd | adapters/ai_brief.py:210-218 | However often it is reduced, the request keeps a suffix of the history, never empties it, cuts text only to a prefix and only in a last single message, and is flagged partial iff it differs |
| BriefBudget.ReductionKeepsCeiling | adapters/ai_brief.py:210-211 | k reductions keep ceil(n / 2^k) of n messages |
| BriefBudget.CountAndShrink | adapters/ai_brief.py:194-218 | Counts exactly the successive reductions, all but the last over budget, stops within budget, at ten counts or when nothing is left to cut, and keeps the right token columns |
| BriefBudget.BriefTables.GenerateBrief | adapters/ai_brief.py:177-268 | At most ten counts, each of the next reduction; each outcome iff its condition; a brief only from the very request last counted at most 160,000; the stored brief survives every other outcome. The status row: truncated iff a brief came from less than the whole history, success iff from all of it, skipped and failed iff no brief or an error; omitted and kept messages add up to the history; error code and both token columns as the answers say |
| BriefBudget.StorableIff | db/migrations/0011_ai_brief_status.sql:3-15 | The status row can be stored iff the counts that end up in its two token columns are 32-bit integers that are not negative |
| StructuredFacts.SecondRunAddsNothing | adapters/resolution/structured_facts.py:44-51 | Running again over any of the connections in any order changes no table |
| StructuredFacts.NoDuplicateFacts | adapters/resolution/structured_facts.py:75-102 | No fact is ever inserted twice |
| EnvelopeWriter.Store.GetOrCreateIdentity | adapters/store_writer.py:115-138 | A new handle gets a row that says whether it is one's own; an old row keeps its flag and any name it has; a missing name is filled in; an empty name is none; no other row changes |
| EnvelopeWriter.Store.Upsert | adapters/store_writer.py:14-112 | Thread and message rows are inserted once and never changed; every handle in from, to and cc has an identity, new ones flagged iff they are one's own, a missing name filled with the first one given in that order, names being matched to handles by position; a new message gets exactly its "from", "to" and "cc" participants, an old one none |
| EnvelopeWriter.ReplayChangesNothing | adapters/store_writer.py:14-112 | Replaying envelopes drawn from those already written, in any order and number, changes no row |
| EnvelopeWriter.FirstEnvelopeDecides | adapters/store_writer.py:44-111 | A message's row and participants are those of the first envelope with its (channel, external id) |
| EnvelopeWriter.FirstNameWins | adapters/store_writer.py:123-133 | Each handle's name is the first non-empty one any envelope gave, in the order handles are resolved |
| LidMerge.RepointingIsSubstitutionIff | scripts/merge_lid_identities.py:69-88 | Guarded update and delete give exactly the image of the participant table under lid to phone iff the identities differ or the lid takes part in nothing; the primary key is never violated |
| LidMerge.OneHandleTwiceLosesRows | scripts/merge_lid_identities.py:69-88 | One handle given twice: the identity's participant row is deleted where the substitution would keep it |
| LidMerge.RepointingKeepsRoles | scripts/merge_lid_identities.py:74-88 | No participant row is left under the lid, and every message keeps exactly its roles |
| LidMerge.ContactStore.Absorb | scripts/merge_lid_identities.py:60-89 | If the phone row has a name it keeps its whole row, else it gets the lid's name and nothing more; every other identity keeps its row and the lid's is gone; the lid's messages and participations are the phone identity's, all others stay; the outcome counts what moved; rolled back iff something still refers to the lid |
| LidMerge.ContactStore.Merge | scripts/merge_lid_identities.py:33-89 | Nothing without a lid row, a rename without a phone row, otherwise the merge, with the effect of Absorb on the two rows found |
| StripHtml.OnePassLeavesNoTag | adapters/outlook/sync.py:54-54 | One left-to-right pass leaves no complete tag anywhere |
| StripHtml.SecondPassIsIdle | adapters/outlook/sync.py:54-54 | Hence a second pass changes nothing |
| StripHtml.TagBecomesSpace | adapters/outlook/sync.py:225-225 | Text, one tag and the rest become the text, one space and the stripped rest |
| StripHtml.KeptHasNoMarker | adapters/outlook/sync.py:217-223 | What precedes the cut contains no complete quote or signature marker |
| StripHtml.QuoteIff | adapters/outlook/sync.py:71-81 | A quote starts where the rest, in whatever case, starts with Outlook's divider id, a block quote, or a class attribute that has gmail_quote before its closing quote |
| StripHtml.SignatureIff | adapters/outlook/sync.py:94-97 | A signature likewise, by Gmail's data attribute or class |
| StripHtml.OwnTagIsReplaced | adapters/outlook/sync.py:54-54 | Where a position's own tag begins, by the tag pattern: the pass replaces the text from there to the next `>` by a space |
| StripHtml.CutIsOwnStartIff | adapters/outlook/sync.py:208-221 | The walk back ends where the marker's own tag begins iff no `<` precedes the marker or exactly one has since the last `>`; it goes too far iff none has since then but one before, and stops inside the tag iff several have |
| StripHtml.CutAtOwnStartIsClean | adapters/outlook/sync.py:217-225 | When it ends there, the text kept is the text in front of the tag, unaffected by the cut |
| StripHtml.BrokenTagSurvives | adapters/outlook/sync.py:217-225 | When it stops inside the tag, the tag's beginning is kept as text |
| StripHtml.TextBeforeBlockquoteIsLost | adapters/outlook/sync.py:217-223 | A body whose unquoted text is lost in front of a `<blockquote` |
| StripHtml.TextBeforeTextMarkerIsLost | adapters/outlook/sync.py:217-223 | A body whose unquoted text is lost in front of a marker that is text behind a closed tag |
| StripHtml.AttributeSplitsTag | adapters/outlook/sync.py:217-225 | A body that keeps the beginning of a tag, split at an attribute's `<` |
| StripHtml.StripBody | adapters/outlook/sync.py:205-242 | An HTML body's text is made only from the cleaned content before its cut, which is the earlier of the last `<` before the first quote and before the first signature, by dropping blocks, a pass, entities, a second pass and stripping, and has no complete tag; a plain body is cut at its quote line |

## Left out

- MergeInversion.NewestFirstUndoIff: states the condition under which the documented order works; without it the claim is false.
- ClosureRuns.ContactsAreClosureOfLog: runs contain careful undos only; `UndoCounterexamples` shows that without this it is false.
- SideTables.MergedContactsInheritNewest: merge-only runs; what an undo or an added handle does to side tables is in the OrphansIff lemmas.
- AutomaticMerges.AutomaticContactsAreSafe: a name filled in during the run must fit its contact, since without this it is false (LateNameContradicts); merges by hand and by review and added handles are excluded, since none of them is checked.
- ContactStats.LabelsExist: the collation that orders display names is a parameter that ranks strings one to one.
- ResolutionList.SecondRunIsIdle: for an entry that raised and was rolled back nothing is claimed of its next run; which entries raise is a parameter.
- ResolutionNews.SecondRunAddsOnlyNews: the second scan returns the first one's rows in the same relative order, since without this it is false (ReorderedRowsFindAnother); an undo in between is excluded, since it makes an identity eligible for the dedupe rule again; of the identity rows and organizations added nothing is claimed.
- ResolutionList.ExtractedIsExtractOne: the extractor's new LinkedIn rows get the ids that the rules would give them.
- RuleMatching.SignatureNeverFindsOwnNumber: the numbers found in a signature are an input, so the phone pattern and its normalisation are not modelled.
- RuleRunner.RuleRunner.RuleExactEmailMatch: the SQL join is a function of the two tables.
- MergeStore.IdentityDatabase.AddContactHandle: starts from the channel and handle that _guess_channel_and_handle read from the raw input.
- Quality.WilsonLower: exact reals, with the square root as a parameter characterised by its square; floating-point rounding is not modelled.
- Quality.Gate: evaluate's parsing, date and sum checks before the final gate are not modelled.
- StripHtml.StripBody: the garble clean-up, style and script blocks, html.unescape and the plain-text quote pattern are arbitrary functions.
- EnvelopeWriter.Store.Upsert: rows are referred to by their unique natural keys instead of generated ids.
- LidMerge.ContactStore.Absorb: references from link_candidate, merge_log and fact are one set of identities that still blocks the delete.
- MergeStore.IdentityDatabase.ApplyMerge: moved_identity_ids, an array in the table, is a set, which is how it is used; reason and score texts of candidates are not kept.
- Case folding, digits and word characters are those of ASCII, except that every character from U+0080 on counts as a word character.
- refresh_touched, the prompt text, the response schema and the choice of model.
- Sync entry points, delta cursors, the WhatsApp queue, and all network, database-driver and browser calls.
- Inbox listing, detail pages, contact search, facts review, monitoring and token handling.
- normalise_org_name, which is an arbitrary function here.
