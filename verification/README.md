# Trust boundary of the agent mesh: a verified model

The mesh lets colleagues' agents answer questions about internal documents without the
documents leaving a trusted zone. What may leave is decided by code: texts are masked and
un-masked, secret documents are reduced to a whitelisted payload, a validator goes over that
payload again, and a prepare/send protocol with a one-shot cache and an audit log guards the
crossing itself. This project models that code in Dafny and proves what it promises.
`dafny verify dfyconfig.toml` checks everything.

In-zone and outside models, the clock, the network and storage are parameters or arbitrary
functions ("oracles"): every statement holds for whatever they answer.

## How it is laid out

| Part | Files |
|---|---|
| Masking and un-masking | `Text`, `Nests`, `Reading`, `Restoring`, `Plans`, `Masking`, `Misreading`, `Pseudonymizer`, `Rehydrator`, `Issuing`, `Collisions`, `MappingMerge`, `Labelled` |
| Prepare, send, cache, audit trail | `EnvelopeCaches`, `Protocol`, `ProtocolProofs`, `ProtocolTheorems`, `ProtocolPending`, `ProtocolRuns`, `ProtocolCauses`, `ProtocolOutcomes` |
| Payload assembly against the validator | `Json`, `Vocabularies`, `Validating`, `StageForms`, `Assembling`, `Labels`, `Batching`, `Extracting`, `PayloadChecks`, `ExtractOutcomes`, `Auditing`, `Dynamic`, `DynamicForms` |
| Detection of quoted originals | `Whitespace`, `Normalizing`, `Ngrams` |
| Organisation chart | `Org`, `OrgDescendants`, `OrgView`, `OrgPlaces` |
| Smaller machines | `LintWeb`, `TraceStore`, `Triage`, `TriageMerge`, `Classifying` |
| Shared | `Schemas`, `Ordering`, `Sequences` |

Masking is proved on *rows* of characters and placeholders (`Nests`). A later replacement may
hit the text of a placeholder already put in, so a placeholder carries a row of its own. Every
`str.replace` on the text is shown to be one rewriting of the row; `Reading` and `Restoring`
follow the keys as they are read back, `Plans` and `Masking` translate the outcome into
conditions on literals, placeholders and the order of the keys.

The protocol is a state machine with one action per section of code between two awaits, so a
list of actions is an interleaving of any number of requests. The comment stripper is proved
against a grammar of source text.

## What the code does, where its documentation says something else

- Un-masking replaces long keys first, to keep keys that lie in one another apart. Bracketed
  placeholders never do: as long as no literal lies inside a placeholder, every order of the
  keys gives the same (`Masking.IsolatedRoundTripIff` asks nothing of the order).
- But the code looks for literals and accepted spans in the masked text, so one that lies inside
  a placeholder put in earlier cuts it up, and then the order decides. `Masking.RoundTripIff` is
  the exact condition, for every text: each placeholder must be read back after those put inside
  it, and each placeholder that the text itself happens to spell must be cut up by one that is
  not read back sooner. `Rehydrator.ConservativeRoundTripIff` says the same of both stages
  together. The code checks neither. For one span inside the placeholder of one literal the
  text comes back exactly when the span's own placeholder is the longer of the two
  (`Collisions.SpanInsidePlaceholder`).
- A category called `CTX` shares its placeholders with the second stage. Only numbers up to that
  of accepted spans collide, and a span of the same number takes the placeholder over in the
  table. `Collisions.CtxPrefixLoses` is the exact condition for every text, whatever collides: it
  spells no issued placeholder, and none was put into it that a span took over from another
  literal. It asks that such a span does not hold the literal; with literals of one line that is
  always so (`Collisions.CtxPrefixOneLine`), and `Misreading.TwoWrongsCanMatch` shows why it asks.
- `secret_tier_local` has a label but is not among the codes the audit log accepts. So a
  target with mixed secret and lower documents raises before its envelope is discarded and
  delisted (`ProtocolRuns.ShippedNeverRecords`); so it does, whatever the codes, when the local
  store refuses the record. Callers
  that send only what they were given are safe all the same (`ProtocolRuns.HonestRunsSafe`),
  others are not (`ProtocolRuns.HonestyNeeded`). `ProtocolTheorems.CallsBelowSecret` says exactly
  which calls are below secret, and that all of them are once the code is accepted and every
  record succeeds.
- A mixed target that does finish pops the last entry of the shared list, not its own. The list
  comes out right exactly when no target raised in the mixed branch and none below secret listed
  its envelope while another was answering there (`ProtocolPending.PendingExactIff`).
- A unit whose parent is the empty string is a root for `ancestors` and a child for
  `children_of`. `OrgDescendants.BlankSplits` and `OrgView.BlankMisplaced` show that this is
  the only thing that keeps the two from agreeing.
- A generated schema may call a slot `key_points` or `conclusion`, which are also keys of the
  fixed answer format (`Dynamic.AnswerNamesAllowed`). An enum of that name does no harm; an integer or boolean one makes stage 3
  reject every payload of its schema. Nothing else about names can (`Dynamic.DynamicRangesIff`).
- Protocol files have `internal_keywords`, described as raising a text to internal; merging
  ignores them, and so does the model.

## Model

| member | source | states |
|---|---|---|
| Masking.RoundTripIff | src/mesh/pseudonymizer.py:104-111 | On every text, with any distinct order of the keys: un-masking gives the text back if and only if every placeholder is read after those put inside it and every placeholder the text spells is cut up by one read no earlier |
| Masking.RoundTrip | src/mesh/pseudonymizer.py:104-111 | A condition on the plan alone is enough for texts that spell no key: whenever a literal lies inside an earlier placeholder, its own is read back first |
| Masking.IsolatedRoundTripIff | src/mesh/rehydrator.py:45-56 | With no literal inside a placeholder: exactly the texts that spell no key, in any order of the keys |
| Masking.SurvivesIff | src/mesh/pseudonymizer.py:107-110 | A replaced literal is left in the masked text if and only if it is left in what has become of a placeholder put in |
| Masking.NothingSurvives | src/mesh/pseudonymizer.py:107-110 | A replaced literal that lies in no placeholder is left nowhere: not in what was kept, not inside a placeholder, not across the edge of one |
| Masking.UnknownSymbolStays | src/mesh/rehydrator.py:45-56 | A placeholder the table does not know stays where it stands, also under tables that hold bracket-free labels that are no part of it, whatever their values |
| Pseudonymizer.IssuePlaceholders | src/mesh/pseudonymizer.py:80-100 | The numbering loop issues, per prefix and in order, one number to each literal that occurs, is not technical and has none yet |
| Pseudonymizer.MaskBody | src/mesh/pseudonymizer.py:104-111 | The replacement loop performs the plan of all pairs that were given a placeholder |
| Pseudonymizer.Apply | src/mesh/pseudonymizer.py:67-119 | The whole first stage, truncation to 3000 characters included, is the function the theorems are about |
| Pseudonymizer.AcceptSpans | src/mesh/pseudonymizer.py:205-218 | Which proposed spans are taken, up to forty |
| Pseudonymizer.NumberSpans | src/mesh/pseudonymizer.py:223-229 | Spans are numbered in sorted order and entered on top of the first stage's table |
| Pseudonymizer.ApplyConservative | src/mesh/pseudonymizer.py:178-244 | The two stages together are the function the theorems are about |
| Pseudonymizer.SortSpansSorts | src/mesh/pseudonymizer.py:226-226 | Spans are sorted longest first, none lost |
| Issuing.IssuedIff | src/mesh/pseudonymizer.py:84-100 | A listed name is given a placeholder if and only if it is no technical term and occurs in one of the texts; its category is the first in the file to list it |
| Issuing.NumberedLongestFirst | src/mesh/pseudonymizer.py:84-100 | A placeholder shows category and number; the numbers of a category run from one without a gap, the longer name has the smaller number |
| Issuing.NoListedNameLeft | src/mesh/pseudonymizer.py:67-119 | With no literal inside a placeholder, a listed name that occurs in one of the texts stands in none of those let out |
| Issuing.NoListedNameLeftByBoth | src/mesh/pseudonymizer.py:178-244 | The same after both stages, whatever the model proposes |
| Issuing.FrontComesBack | src/mesh/pseudonymizer.py:104-106 | What comes back is the first 3000 characters, all of a shorter text, and the result says whether any text was cut |
| Issuing.AcceptedAre | src/mesh/pseudonymizer.py:205-226 | The accepted spans are exactly the stripped proposals of 2 to 80 characters without brackets, no technical terms, that stand in the masked texts - all of them, or those up to the fortieth; longest first, then by text |
| Issuing.JoinedHolds | src/mesh/pseudonymizer.py:202-214 | A span of one line stands in the joined texts if and only if it stands in one of them |
| Text.DecimalSpells | src/mesh/pseudonymizer.py:98-98 | The number in a placeholder reads as the number issued, without leading zeros |
| Schemas.KeysLongestFirstCovers | src/mesh/schemas.py:447-450 | The keys come out longest first, each of them and none besides |
| Rehydrator.RehydrateText | src/mesh/rehydrator.py:45-56 | The un-masking loop, with its test whether a key occurs, is replacement of all keys in order |
| Rehydrator.PlaceholderInjective | src/mesh/pseudonymizer.py:98-98 | Prefix and number can be read off a placeholder |
| Rehydrator.ApplyRoundTripIff | src/mesh/pseudonymizer.py:67-119 | One stage, every text: exactly when the first 3000 characters come back, and exactly which issued literals are left |
| Rehydrator.LongerReadFirst | src/mesh/schemas.py:447-450 | Of two keys the longer one is read back first |
| Rehydrator.ApplyRoundTrip | src/mesh/pseudonymizer.py:67-119 | When no literal lies inside a placeholder: exactly the texts that spell no issued placeholder come back, and no issued literal is left in any output |
| Rehydrator.ConservativeRoundTrip | src/mesh/pseudonymizer.py:178-244 | Texts that spell no issued placeholder come back, whatever spans are proposed, if every literal or span inside an earlier placeholder has its own placeholder read back first |
| Rehydrator.ConservativeRoundTripIff | src/mesh/pseudonymizer.py:178-244 | Both stages, every text, whatever spans are proposed: exactly when the text comes back, and exactly which literals and spans are left in it |
| Rehydrator.ConservativeIsolated | src/mesh/pseudonymizer.py:178-244 | With literals and spans outside all placeholders: exactly the texts that spell none come back, and no literal or span survives |
| Collisions.SpanInsidePlaceholder | src/mesh/pseudonymizer.py:206-229 | One literal and one accepted span inside its placeholder, any text spelling neither key: restored if and only if the span's placeholder is the longer one |
| Collisions.CtxPrefixCollides | src/mesh/pseudonymizer.py:224-229 | The table reads the placeholder of a category called CTX as the second stage's span of the same number |
| Collisions.CtxPrefixLoses | src/mesh/pseudonymizer.py:178-244 | Every text, any number of collisions: it comes back if and only if it spells no issued placeholder and none was put into it that a span took over from another literal |
| Collisions.CtxPrefixOneLine | src/mesh/pseudonymizer.py:206-229 | With literals of one line: if and only if it spells none and none that collides was put into it |
| Misreading.MisreadIff | src/mesh/rehydrator.py:45-56 | The same of any plan and table: a wrong reading is never made up for by what follows, unless it holds the literal it stands in for |
| Misreading.TwoWrongsCanMatch | src/mesh/rehydrator.py:45-56 | One that does hold it can be made up for |
| Rehydrator.MappingOrderFree | src/mesh/pseudonymizer.py:84-100 | The mapping depends on which texts there are, not on their order or repetition |
| Rehydrator.LongLiteralWins | src/mesh/schemas.py:364-369 | A literal standing alone gets its own placeholder even when shorter literals lie inside it |
| MappingMerge.MergeMappings | src/mesh/pseudonymizer.py:247-261 | Merging fails exactly when two mappings disagree on a key, and otherwise says exactly what they say |
| Labelled.LabelledIff | src/mesh/rehydrator.py:45-56 | Labels that neither the text nor a placeholder holds make no difference, whatever they stand for and wherever they come in the order |
| Labelled.LabelledRoundTripIff | src/mesh/gatekeeper.py:705-721 | Both stages, un-masked with the mapping merged with document labels: a text without labels and spelled placeholders comes back if and only if every placeholder is read after those put inside it |
| Labelled.LabelledRoundTrip | src/mesh/gatekeeper.py:705-721 | So it does whenever each literal or span inside an earlier placeholder has its own read first |
| EnvelopeCaches.EnvelopeCache.constructor | src/mesh/gatekeeper.py:409-411 | A new cache is empty |
| EnvelopeCaches.EnvelopeCache.Sweep | src/mesh/gatekeeper.py:444-452 | Removes exactly the expired entries and counts them |
| EnvelopeCaches.EnvelopeCache.Put | src/mesh/gatekeeper.py:413-423 | Sweeps, then stores |
| EnvelopeCaches.EnvelopeCache.Take | src/mesh/gatekeeper.py:425-433 | Hands out an unexpired entry and removes it |
| EnvelopeCaches.EnvelopeCache.Peek | src/mesh/gatekeeper.py:435-438 | Shows an unexpired entry without removing it |
| EnvelopeCaches.EnvelopeCache.Discard | src/mesh/gatekeeper.py:440-442 | Removes one entry |
| EnvelopeCaches.OneShot | src/mesh/gatekeeper.py:413-452 | An entry is handed out up to the time limit, to the first taker only |
| EnvelopeCaches.HistoryIs | src/mesh/gatekeeper.py:413-452 | In every history, whatever the clock: an entry is in the cache if and only if it was stored, or there to begin with, and every operation since has spared it - none stored, took or discarded its id, and none swept when it was too old |
| ProtocolProofs.StepBooks | src/mesh/orchestrator.py:941-1551 | Every step keeps the bookkeeping: who owns an envelope, what the cache holds, that only targets below secret are ready |
| ProtocolProofs.StepHistory | src/mesh/orchestrator.py:1616-1809 | Every step keeps the log in agreement with where each envelope stands |
| ProtocolProofs.StepAudited | src/mesh/gatekeeper.py:869-956 | Every step keeps the audit trail around calls; no step but a send's adds to the log |
| ProtocolTheorems.CallsBelowSecret | src/mesh/orchestrator.py:1352-1488 | In every interleaving a call is below secret exactly when its envelope was offered; with the reason code accepted and every mixed answer recorded every call is |
| ProtocolTheorems.CalledOnce | src/mesh/orchestrator.py:1737-1809 | In every interleaving an envelope is taken at most once and called at most once for an answer, then at most once for a draft |
| ProtocolPending.KeepsSized | src/mesh/orchestrator.py:1421-1440 | The pop on the shared list never finds it empty and keeps its length right, whoever's entry it takes |
| ProtocolPending.KeepsExact | src/mesh/orchestrator.py:1421-1440 | The pop keeps the list exact if and only if the last entry is the target's own |
| ProtocolPending.PendingExactIff | src/mesh/orchestrator.py:957-988 | In every run the pending list names nothing twice, and names exactly the offered envelopes if and only if no target raised in the mixed branch and none below secret listed its envelope while another was answering there |
| ProtocolPending.ExactWithoutMixed | src/mesh/orchestrator.py:1352-1440 | So without a mixed target the list is exact in every run |
| ProtocolPending.ListNeverShort | src/mesh/orchestrator.py:1333-1440 | In every run the list has as many entries as listed targets |
| ProtocolRuns.OfferedIsLive | src/mesh/gatekeeper.py:425-433 | In every run an offered, unsent envelope is in the cache up to its time limit and no longer |
| ProtocolRuns.OneOutcomePerTarget | src/mesh/orchestrator.py:957-988 | A prepare of n targets tells n outcomes, each a block or an envelope made for this request below secret |
| ProtocolRuns.LogGrows | src/mesh/audit.py:253-282 | The log only grows, and stretches without a send add nothing to it |
| ProtocolRuns.CallsAreAudited | src/mesh/gatekeeper.py:869-1000 | Every call stands right after a request record with its envelope, hash and model and a non-blank approver, and its envelope passed validation |
| ProtocolRuns.HonestRunsSafe | src/mesh/orchestrator.py:1619-1622 | In every run whose sends name only offered envelopes no secret payload is called out |
| ProtocolRuns.HonestyNeeded | src/mesh/audit.py:295-331 | Where a mixed answer cannot be recorded, with the shipped codes or for want of the store, that condition is needed |
| ProtocolRuns.ShippedNeverRecords | src/mesh/audit.py:173-180 | With the shipped codes a mixed answer is never recorded |
| ProtocolRuns.CrossingHappens | src/mesh/orchestrator.py:1421-1422 | With the reason code accepted there is a run in which a pop takes an offered envelope off the list |
| ProtocolCauses.AnswersAreAskedFor | src/mesh/orchestrator.py:1619-1760 | In every run each call for an answer was made by a dispatch under the limit whose record was accepted, after a send that names the envelope and whose request lists it; the record before it names that send's approver |
| ProtocolCauses.DraftsAreAskedFor | src/mesh/orchestrator.py:1661-1690 | In every run each call for a draft was made by a draft that follows a reply to the same envelope that has to be escalated, its dispatch and its send; the record before it names the asker |
| ProtocolCauses.EscalationIsDrafted | src/mesh/orchestrator.py:1845-1867 | After such a reply the draft stays due until it is made; once all envelopes of the send are settled it adds its record and one call if the asker is named and the record is accepted, and nothing otherwise |
| ProtocolCauses.SentIsCalled | src/mesh/orchestrator.py:1737-1775 | A selected envelope waits under its send's names until dispatched or cancelled; below secret and within its time limit, with a named approver, its dispatch adds the take, the record and one call |
| ProtocolCauses.ResultsAreReplies | src/mesh/gatekeeper.py:895-913 | Each result on record was added by a reply that came back, with that envelope's id, hash and approver |
| ProtocolCauses.TaskInOrder | src/mesh/orchestrator.py:1624-1690 | In every run an envelope is dispatched, replied to, drafted and cancelled at most once, in that order, and nothing follows a cancel |
| ProtocolCauses.DraftsComeLast | src/mesh/orchestrator.py:1655-1690 | Once a draft of a send is made, nothing but drafts happens to any of its envelopes: all answers are in first |
| ProtocolCauses.CallEnds | src/mesh/orchestrator.py:1770-1800 | A call that comes back adds its result and is due for a draft just if it has to be escalated; one that fails or is given up adds nothing |
| ProtocolOutcomes.OutcomeIs | src/mesh/orchestrator.py:1352-1440 | What the caller is told of a target: Ready exactly when its payload passed its checks and is below secret, with an envelope of this payload's tier and hash, made at that moment for this request |
| ProtocolOutcomes.PendingUntil | src/mesh/orchestrator.py:1880-1887 | A published request waits with its list exactly until it is sent or a later prepare finds it older than the limit |
| ProtocolOutcomes.TimeIs | src/mesh/gatekeeper.py:444-452 | Time in a run is what its ticks add up to |
| JsonValues.WalkFindsLeaves | src/mesh/validator.py:140-178 | The walk meets exactly the string leaves, at any depth |
| JsonValues.AllKeys | src/mesh/validator.py:158-169 | The stack loop collects exactly the keys at any depth |
| Normalizing.TokensConcat | src/mesh/validator.py:117-122 | The words of a concatenation are the words of its parts, but for one that may be joined where they meet |
| Normalizing.NormalizeIsJoined | src/mesh/validator.py:93-99 | Normalising is joining the lowered words by single blanks |
| Ngrams.DetectorComplete | src/mesh/validator.py:418-488 | A row of n words of an original in any string of the payload, or a whole original of fewer, fails the stage whatever the white space and case |
| Ngrams.NgramPassedIff | src/mesh/validator.py:445-489 | The stage passes if and only if no row of n words of an original, and no whole original of fewer, stands in the lowered words of the JSON text and the strings |
| Ngrams.SentencesAre | src/mesh/validator.py:125-132 | The sentences of a text are exactly its stretches between stops of at least four words, normalised |
| Ngrams.VerbatimSentenceCount | src/mesh/validator.py:608-642 | The count is the number of places in the originals where such a stretch starts that stands, normalised, in the payload |
| Ngrams.SentenceCounts | src/mesh/validator.py:608-642 | So one sentence of an original in the payload makes the count positive |
| Ngrams.SentencesShort | src/mesh/validator.py:125-132 | If the stage passes, a sentence still standing in the payload has fewer than n + 2 words |
| Ngrams.CountIsZero | src/mesh/validator.py:608-642 | So the count is 0 when all kept sentences have n + 2 words |
| Assembling.CoerceFits | src/mesh/extractor.py:183-245 | Coercion yields a value of the slot's type, or nothing; coercing again changes nothing |
| Assembling.CoerceIff | src/mesh/extractor.py:183-245 | A value is coerced to w if and only if it says w: a flag from itself, 1 or 0 or one of the listed words, stripped and lowered; an integer from itself, a whole real or a text read as one; an enum value from its text, stripped and allowed |
| Assembling.Assemble | src/mesh/extractor.py:252-279 | The loop over the slots computes the assembled facts |
| Assembling.AssembledFits | src/mesh/extractor.py:252-279 | Whatever the answer, only slots come out, each with a fitting value |
| Assembling.AssembledFills | src/mesh/extractor.py:268-278 | A slot is filled exactly when the answer gives it something that can be made to fit |
| Assembling.AssembledIff | src/mesh/extractor.py:268-278 | With distinct slots, a slot comes out with a value exactly when the answer gives one, not unknown, that says it |
| Assembling.OnlySlotsMatter | src/mesh/extractor.py:252-279 | Answers that agree on the slots assemble alike |
| Assembling.PutReplaces | src/mesh/extractor.py:656-657 | Facts under a label that is already there take the place of the earlier ones |
| Labels.AssignRefs | src/mesh/extractor.py:316-351 | The loop labels the sorted documents per role, or fails without documents or beyond 26 of a role |
| Labels.AssignedAre | src/mesh/extractor.py:316-351 | Documents are labelled in order of tier, path and id, each with its role's prefix and the letter of its number among those of its role; fails exactly without documents or with more than 26 of a role |
| Labels.RefIsLabel | src/mesh/extractor.py:301-313 | Every label has the form the schema stage lets through |
| Labels.RefsApartIff | src/mesh/extractor.py:338-350 | Labels are distinct exactly when the roles in use have distinct prefixes |
| Batching.BatchCount | src/mesh/extractor.py:427-432 | Slots make one batch per twelve, rounded up |
| Batching.BatchIs | src/mesh/extractor.py:427-432 | Batch i is the i-th stretch of twelve slots |
| Batching.BatchesHold | src/mesh/extractor.py:427-432 | Every slot is in a batch and nothing else is |
| Batching.FillDocument | src/mesh/extractor.py:635-653 | The loop over the batches merges what was asked for and counts what was not |
| Extracting.DocumentNotBlank | src/mesh/extractor.py:402-418 | No document is skipped as blank |
| Extracting.FillAll | src/mesh/extractor.py:628-657 | The loop over the documents collects facts under their labels |
| Extracting.Extract | src/mesh/extractor.py:604-687 | The outcome, failures included, as a function of the model's answers |
| Extracting.FilledIff | src/mesh/extractor.py:635-657 | With distinct names, a document has a fact exactly when the answer to a call for it says so of that slot |
| ExtractOutcomes.ExtractFailsIff | src/mesh/extractor.py:620-677 | Which outcome extraction has, said of the answers: no labels, a failed call, nothing said of any slot, nothing said of a required one, or success - exactly in this order |
| ExtractOutcomes.DropCountIs | src/mesh/extractor.py:650-653 | The drop count is the number of keys, over all calls, that the call did not ask for |
| PayloadChecks.FactsAreTold | src/mesh/extractor.py:628-657 | Every value under facts is what the model said of that slot in answer to a call for the document of that label |
| PayloadChecks.ToldAreFacts | src/mesh/extractor.py:628-657 | With distinct names and labels everything it said so is there |
| StageForms.VisitsAre | src/mesh/validator.py:140-155 | The walk visits exactly the values below the root, each under the path of keys and item numbers that leads to it |
| StageForms.SchemaPassedIff | src/mesh/validator.py:249-296 | Stage 1 on any payload: passes if and only if it is an object without excerpts whose keys at every depth are structural, slots', answers' or of the form of a label |
| StageForms.VocabPassedIff | src/mesh/validator.py:304-348 | Stage 2 on any payload: if and only if every string at every depth is registered, a role, an answer's text, an allowed value, or of the form of a label or placeholder |
| StageForms.RangesPassedIff | src/mesh/validator.py:181-388 | Stage 3 on any payload: if and only if no value whose path ends in a slot's name is of another type than the slot or out of its bounds |
| PayloadChecks.SchemaStagePasses | src/mesh/validator.py:249-296 | Stage 1 passes on every assembled payload |
| PayloadChecks.VocabStageIff | src/mesh/validator.py:321-348 | Stage 2 passes exactly when the frame is registered and no unregistered default role is brought in |
| PayloadChecks.RangeStageIff | src/mesh/validator.py:356-388 | Stage 3 passes exactly when every fact suits the slot its path ends in and no slot but an enum takes its name from the frame, the entities or the end of an answer key; whatever the names |
| PayloadChecks.RangeStageNamed | src/mesh/validator.py:356-388 | With distinct names free of dots and of the frame's keys: exactly when integers are within bounds and slots that answer keys end in are enums |
| PayloadChecks.AnswerKeyClash | src/mesh/validator.py:181-197 | An answer key ending in an integer or boolean slot's name fails stage 3 whatever was assembled |
| PayloadChecks.ExtractionPasses | src/mesh/extractor.py:604-687 | Stage 1 passes on every payload extract returns, for every answer of the model; stages 2 and 3 exactly when the stated conditions hold |
| PayloadChecks.CallsMade | src/mesh/extractor.py:628-645 | One call per document and twelve slots |
| PayloadChecks.RequiredAreFilled | src/mesh/extractor.py:669-677 | Every required slot has a fitting value in some document |
| PayloadChecks.EntitiesMatchFacts | src/mesh/extractor.py:541-574 | With distinct labels the payload's entities array holds, in the order of the facts and one for each, objects whose ref is the fact's label |
| PayloadChecks.DistinctIff | src/mesh/extractor.py:301-351 | When those labels are distinct |
| PayloadChecks.OutsideKeysIgnored | src/mesh/extractor.py:650-653 | Keys outside the requested batch change nothing but the drop count |
| Auditing.RejectForbidden | src/mesh/audit.py:229-251 | The worklist rejects only for a forbidden key, and up to ten thousand values always does |
| Dynamic.CollectSlots | src/mesh/extractor.py:776-784 | The loop over the first eight proposals |
| Dynamic.GeneratedWellFormed | src/mesh/extractor.py:695-808 | Every generated schema is well formed, whatever was proposed |
| DynamicForms.SlotIff | src/mesh/extractor.py:695-737 | A proposal becomes a slot if and only if it is an object that proposes it: name of the form and not barred, two to twelve labels in order of first mention, bounds read as integers and put in order, or a flag; never required |
| DynamicForms.GeneratedIff | src/mesh/extractor.py:768-808 | A schema is made exactly when one of the first eight proposals proposes a slot, of each name the first, in order |
| DynamicForms.MergedAllows | src/mesh/gatekeeper.py:543-569 | The vocabulary merged for a generated schema lets through what the registered one does and the schema's own three names, and nothing else |
| Dynamic.DynamicPayloadPasses | src/mesh/gatekeeper.py:543-569 | Every payload extracted with it passes stages 1 and 2 under the merged vocabulary and is accepted by the audit log |
| Dynamic.DynamicRangesIff | src/mesh/extractor.py:695-718 | Stage 3 passes on a payload of a generated schema exactly when its integers are within bounds and slots called key_points or conclusion are enums |
| Dynamic.AnswerNamesAllowed | src/mesh/extractor.py:704-711 | The form of names lets both through, and neither is reserved |
| Org.CheckChain | src/mesh/org.py:286-299 | The walk up from one unit: fine exactly when its chain ends within eight, a cycle exactly when ids repeat within it |
| Org.CheckAcyclic | src/mesh/org.py:286-299 | Accepts exactly when all chains end within eight, and names a true reason otherwise |
| Org.ShallowIff | src/mesh/org.py:286-299 | Rejected is exactly a chart with a cycle or a chain of more than eight |
| Org.EightLayers | src/mesh/org.py:286-299 | Accepted is exactly a chart without nine units each the parent of the one before |
| Org.ValidateTree | src/mesh/org.py:273-284 | Accepts exactly the valid charts, and which error is which |
| Org.WalkAncestors | src/mesh/org.py:161-171 | The guarded walk as a function |
| Org.AncestorsComplete | src/mesh/org.py:161-171 | In an accepted chart the walk is the complete chain from a root to the unit |
| Org.ChainUnique | src/mesh/org.py:161-171 | A unit has one such chain |
| Org.SharedDepthIsCommonPrefix | src/mesh/org.py:199-205 | The shared depth is the length of the common beginning of the two chains, hence symmetric |
| Org.SharedDepthIs | src/mesh/org.py:199-205 | And zero without two ids |
| Org.DepthIsAbove | src/mesh/org.py:176-177 | The depth of a unit is the number of units above it, that of anything else zero |
| OrgDescendants.DescendantIds | src/mesh/org.py:182-193 | On any chart the worklist ends, without repetition, with exactly what hangs below |
| OrgDescendants.DescendantsAre | src/mesh/org.py:182-193 | In an accepted chart: exactly the units whose chain contains the given one |
| OrgDescendants.BlankSplits | src/mesh/org.py:161-193 | The one exception, a unit under a blank id |
| OrgView.ToView | src/mesh/org.py:209-269 | The bucket loops, the sorting and the recursive tree as a function |
| OrgView.SeatIs | src/mesh/org.py:219-240 | A person has a seat exactly when the unit and the rank exist, and then the last rank of that id |
| OrgView.OwnIdsAre | src/mesh/org.py:219-247 | A node lists exactly the members of its unit, by rank and id |
| OrgView.TotalsAre | src/mesh/org.py:243-257 | Totals of built trees are the members drawn in them |
| OrgView.ViewConserves | src/mesh/org.py:209-269 | In an accepted chart every unit is drawn once, at its depth, and root totals add up to the members |
| OrgPlaces.MembersPlacedOnce | src/mesh/org.py:219-257 | In an accepted chart the member ids of all nodes are the members, each exactly once and in the node of the own unit |
| OrgView.NobodyLost | src/mesh/org.py:219-240 | Members and unplaced together are the people |
| OrgView.UnplacedAre | src/mesh/org.py:223-227 | Unplaced is exactly for want of a unit or a rank |
| OrgView.ViewListsEveryone | src/mesh/org.py:260-269 | The published lists are these people, sorted |
| Ordering.LexIs | src/mesh/org.py:230-262 | Strings and paths are ordered by the first place where they differ, a beginning before what goes on |
| OrgView.BlankMisplaced | src/mesh/org.py:176-180 | A unit drawn where depths are right has no blank parent |
| LintWeb.StripComments | scripts/lint_web.py:49-97 | The six-state loop as a function on the text |
| LintWeb.StripIsRendered | scripts/lint_web.py:49-97 | On the grammar of code, literals and comments: everything but comments comes out unchanged and in order |
| LintWeb.StripTwice | scripts/lint_web.py:49-97 | On every text: idempotent, newlines kept, two characters fewer per comment opened |
| TraceStores.TraceStore.constructor | src/mesh/trace.py:1035-1038 | A new store is empty |
| TraceStores.TraceStore.Sweep | src/mesh/trace.py:1053-1058 | Removes exactly what is too old |
| TraceStores.TraceStore.Put | src/mesh/trace.py:1040-1046 | Sweeps, evicts the oldest when full, enters |
| TraceStores.TraceStore.Get | src/mesh/trace.py:1048-1051 | Sweeps and looks up |
| TraceStores.RunSound | src/mesh/trace.py:1027-1061 | In every history at most max entries, each the last put under its id |
| TraceStores.GetIsLastPut | src/mesh/trace.py:1048-1051 | A lookup yields the last trace put, not older than the limit, or nothing |
| TraceStores.Survives | src/mesh/trace.py:1040-1046 | With a strictly increasing clock a trace outlives the next max - 1 puts until the limit |
| Triage.ScoreCandidate | src/mesh/triage.py:293-349 | The accumulating score as a sum |
| Triage.ScoreIs | src/mesh/triage.py:262-349 | The score by what the question mentions of topics, title and units and shares with expertise and focus, with weights and limits spelled out |
| Triage.WordsPart | src/mesh/triage.py:228-259 | Anything but digits, Latin letters and Hangul syllables parts words |
| Triage.WordNeverLowers | src/mesh/triage.py:228-349 | Adding words to the question never lowers a rule score |
| TriageMerge.ParsePicks | src/mesh/triage.py:431-460 | The model's reply is cut down to valid candidate numbers |
| TriageMerge.PicksValid | src/mesh/triage.py:447-459 | Each number exists and comes once |
| TriageMerge.PicksAre | src/mesh/triage.py:447-459 | The picks are exactly the candidates' numbers that the reply names, in the order it first names them |
| TriageMerge.BeforeCapIs | src/mesh/triage.py:483-537 | For different ids: who is picked gains 0.8 and is in if available, anybody else is in if available with a score of the threshold |
| TriageMerge.TriageAll | src/mesh/triage.py:483-557 | The verdicts per id, the picks, ordering and cap as a function |
| TriageMerge.ModelOnlyWidens | src/mesh/triage.py:503-527 | Before the cap the model drops nobody and lowers no score, and nobody unavailable is in |
| TriageMerge.CapIsFair | src/mesh/triage.py:540-557 | The cap keeps min(cap, relevant) of any list of verdicts, changes nothing but relevance, and demotes none above a kept one |
| TriageMerge.CapKeepsFirst | src/mesh/triage.py:540-557 | The outcome stands by score, then name, and of the relevant just the first, up to the cap, stay so |
| TriageMerge.TriageFair | src/mesh/triage.py:483-557 | The whole outcome, for different ids: each candidate once, min(cap, relevant) relevant, rule hits in before the cap, none unavailable relevant, none demoted above a kept one |
| Classifying.MergeToRules | src/mesh/protocol_store.py:143-202 | The merging loops form the union of what the protocols say |
| Classifying.MergedAre | src/mesh/protocol_store.py:143-202 | The merged rules hold the built-in entries, the given bans and every non-blank entry of every protocol, and nothing else |
| Classifying.TiersAre | src/mesh/classifier.py:158-213 | A text is open exactly when it says so, lies in an open directory and nothing secret is found; secret exactly when something is found or it says so |
| Classifying.RuleNumbers | src/mesh/classifier.py:158-213 | Which rule decided, by what is found |
| Classifying.WiderRules | src/mesh/classifier.py:158-213 | Wider rules keep every secret verdict, and lower a tier exactly for a text headed open, in a directory only they open, in which they find nothing secret |
| Classifying.MoreProtocols | src/mesh/protocol_store.py:143-202 | The same for more protocols; none lowers a tier unless it opens directories |
| Classifying.OrderDoesNotMatter | src/mesh/protocol_store.py:143-202 | Order and repetition of protocols make no difference |
| Classifying.Classify | src/mesh/classifier.py:298-348 | Open exactly under that condition and with no reply above open; secret exactly for a find, a secret header, a failing model or a secret reply |

## Left out

- Rehydrator.RehydrateText: does not compute the list of symbols left over, which a display regex collects.
- Issuing.NoListedNameLeft: is about plans in which no literal lies inside a placeholder; what is left otherwise Rehydrator.ApplyRoundTripIff says.
- Rehydrator.ConservativeRoundTripIff: is about literals and prefixes free of angle brackets.
- Collisions.CtxPrefixLoses: is about plans in which no literal or span lies inside a placeholder, and leaves out spans that properly hold the literal they take over from, which takes a literal with a line break and a span across two of the joined texts.
- Labelled.LabelledRoundTripIff: is about texts that hold no label and spell no placeholder; what un-masking makes of a label that the text holds is not modelled.
- Masking.RoundTripIff: is about texts and literals as sequences of characters, with no Unicode normalisation.
- Normalizing.NormalizeIsJoined: lower case goes character by character, so the rule for a final sigma, which looks at neighbours, is not captured.
- Ngrams.DetectorComplete: covers structured payloads; the pseudonymised grade, which keeps only n-grams with an identifier, and the verbatim grade, which applies no check, are not modelled.
- PayloadChecks.ExtractionPasses: stages 4 (banned terms) and 6 (size in bytes) are not modelled; stages 1 to 3 for structured payloads only.
- ExtractOutcomes.ExtractFailsIff: is about slots of distinct names and distinct labels; with equal ones a later answer or document takes the place of an earlier one.
- Auditing.RejectForbidden: says nothing of what lies beyond ten thousand values, which the source does not look at.
- Batching.FillDocument: the model's answers are maps without an order of keys.
- Dynamic.DynamicPayloadPasses: takes lower case to act on ASCII as usual.
- Dynamic.CollectSlots: the model's numbers have no infinity, so a bound that is one, on which the source raises an error it does not catch, is not captured.
- PayloadChecks.VocabStageIff: the digits of a placeholder are the ASCII ones; the source's pattern knows others too.
- OrgView.ViewConserves: needs that no unit has a blank parent; OrgView.BlankMisplaced shows the condition to be exact.
- OrgView.ToView: the recursion is bounded by sixteen layers, more than an accepted chart has; labels, icons and titles are not carried.
- LintWeb.StripComments: stops before the final split into lines, which knows more line ends than the newline.
- TriageMerge.TriageFair: is about candidates of different ids, as the configuration's keys are; the verdicts of candidates that share one are entered over each other as in the source, with no statement about fairness.
- Triage.ScoreCandidate: weights are integers in thousandths; reason codes and sentences are not carried.
- Classifying.MergeToRules: globs, patterns and the header regex are arbitrary predicates.
- ProtocolTheorems.CallsBelowSecret: targets on other nodes, peer networking and the hub flow are not part of this model; a timeout is a cancellation of single tasks; the daily limit and whether the audit and local stores accept a record are free choices of the environment.
- ProtocolRuns.CallsAreAudited: a payload that skips extraction carries a validation result that passes by construction; the model has that case among those that passed.
- ProtocolRuns.OneOutcomePerTarget: the text of in-zone answers and the tier note are not carried.
- Recursive un-masking of response objects, confidence branches, merging of answers and citations are simple functions of their arguments.
- SQL, files, HTTP, configuration, prompts, traces' panels and the user interface are not part of this model.
