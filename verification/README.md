# Verified model of the collection core

A collector asks questions of a chat front end through a browser and records the answer, the citations and the search
evidence behind it. Four parts decide whether what it records can be trusted, and this project models them and proves
what they are for:

1. the **proxy-exit allocator**, a state machine that interleaved asynchronous calls mutate
   (`ProxyPool`, `PoolState`, `PoolRuns`, `PoolBindings`, `PoolRecurrence`, `PoolResolution`, `AssignmentHash`);
2. the **search-evidence extraction**: a depth-bounded walk over JSON with JSON inside strings, the accumulator it
   feeds, the collector that merges again over many responses, the event-stream splitter and the bounded reader
   (`EvidenceWalk`, `EvidenceMerge`, `EvidenceExtraction`, `PlausibleQuery`, `EvidenceCollector`, `EvidenceCapture`,
   `SseChunks`, `BodyReader`);
3. the **prompt-execution protocol** with the page as an adversary that may answer anything, the waiting for a stable
   answer, the check before a run and the citation accounting
   (`PageLog`, `SubmitProtocol`, `SubmitRuns`, `AnswerWait`, `FrontEndGuard`, `Citations`, `Errors`);
4. **URL identity and exit normalisation**, the keys the other parts deduplicate on
   (`UrlIdentity`, `HostLabels`, `ProviderAnswer`, `ExitExtraction`, `ProxyRecord`).

`Wrappers`, `Sequences`, `InsertionMap` and `Text` hold what all of them share. `dafny verify dfyconfig.toml` checks
everything.

## How the code is read

- **Atomic steps.** In the allocator one step is a stretch of code between two awaits: an acquire up to its refresh,
  the start of an extraction, its end (insert all, then prune, or record the failure), the resumption of a waiter, a
  release. A run is any sequence of such steps with clock readings that never go back; a timer fires no earlier than
  it was set for. One pool per file; the configuration is fixed for a run. Times are reals, since the interval may be
  fractional.
- **In-place code stays in place.** `PoolState.State`, `UrlIdentity.UrlObject`, `EvidenceExtraction.Accumulator`,
  `EvidenceCapture.Collector` and `SubmitProtocol.Page` are classes whose methods are proved equal to a function on
  their abstract value, or to keep a predicate over what was done; the theorems are about that function or predicate.
  JavaScript's `Map` and `Set` are sequences in insertion order where the order can be seen, sets where it cannot.
- **The page** is an unknown function from the number of the call to a reply: it may throw, show anything and take any
  time. What every call asks for is logged, and a run of the log (`PageLog.Run`) ties what the code noted and
  attempted to the replies: which look, check or send is due, what was learned and what was tried follows from them. A
  send attempt whose action throws counts as not completed. An exception of a page call carries no details.
- **Assumed of the platform.** A parsed URL is a record with decoded parameters; collation is a function whose
  antisymmetry or transitivity is required only where a lemma says so; lower-casing is any function. The parser never
  yields a host with a bar in it, and normalising a normalised server changes nothing. `JSON.parse` yields a finite
  tree whose objects are all distinct, so the visited set of the walk never stops it. White space and ASCII case
  folding are as in the ECMAScript standard, and the length of a text is its number of characters. The sort is written
  as an insertion sort; any stable sort gives the same sequence.

## What the proofs found

Where a promise is not met as stated, the code is modelled as it is, an input or a run shows the gap, and the exact
condition is proved where the promise holds on some inputs.

- In per-session mode an exit id stays marked until the end of some refresh evicts its exit or forgets its mark, and
  the exact condition for that is proved; a release never unmarks (`PoolRuns.UnmarksIff`). So a provider whose items
  carry no ids (they become `extracted_1`, `extracted_2`, ...) and no expiry serves each id once in the life of the
  process (`PoolBindings.RecurringIdsExhaustPool`), and there is a run in which a new server arrives under a used id,
  enters the inventory, and the acquire that waited for it is refused (`PoolRecurrence.RecurringIdRefused`).
- A fresh binding keeps bindings one-to-one exactly when some qualifying exit is unbound
  (`PoolBindings.FreshBindingOneToOneIff`).
- Assignment keys collide only through a bar in a platform name (`AssignmentHash.KeysCollideIff`).
- Canonical URLs are independent of parameter order exactly when no two different surviving parameters collate equal
  (`UrlIdentity.OrderIrrelevantIffNoTies`).
- The collector's sources differ from one flat extraction only in positions (`EvidenceCollector.CollectorIsFlat`). A
  position agrees exactly when the first response with the URL states one, or what the flat extraction falls back on
  happens to be the rank in that response (`EvidenceCollector.PositionsAgreeIff`, `EvidenceCollector.PositionsDiffer`).
- The collected queries are those of one flat extraction exactly when every key that passes by its first query in some
  response also passes by its first query overall (`EvidenceCollector.QueriesAreFlatWhen`). That holds for all
  responses exactly when plausibility goes by the lower-cased text, which a lower-casing that knows the Kelvin sign
  breaks (`EvidenceCollector.QueriesAreFlatIff`, `EvidenceCollector.AgreementDependsOnLowering`).
- A text whose only marker is a `search_results` member is skipped by the gate although the walk would find its
  source; the text is written out and shown to carry none of the markers (`EvidenceCapture.GateSkipsSample`).
  Absorbing a text again changes nothing but the count of rejected queries, which grows
  (`EvidenceCapture.AbsorbingAgain`).
- The event-stream splitter delivers the event a stream ends in without a blank line and strips all leading white
  space, unlike section 9.2.6 of the WHATWG HTML standard. It agrees with the format exactly when no ended event has a
  value with white space after the one space the format drops, and nothing that means anything is left over at the
  end; this holds on all streams whose lone carriage returns occur in noise only and whose bare `data` lines are the
  only data of their events (`SseChunks.AgreesWithFormatIff`, `SseChunks.UnterminatedEventDelivered`,
  `SseChunks.RoundTripIff`). Beyond these, equal results can come from different events (`SseChunks.AgreeByChance`).
- The discard reason `unparseable` is always 0: a link that does not parse fails the external-host test first and is
  counted under `internalHost` (`Citations.NormalizeCitationRows`).
- `promptSubmitted` is exactly "handed over and not refused by the input box" (`SubmitProtocol.Page.ExecutePrompt`):
  never `false` when something was attempted (`SubmitProtocol.ExecutionIsSafe`), but `true` does not mean that
  something was. A run attempted something exactly when a reply of the page showed an enabled control while the button
  was looked for, or the input box while it was looked for to press Enter; so a flagged run attempted nothing exactly
  when the page showed neither, and a run reported as sent by Enter pressed it exactly when the page showed the box
  (`SubmitProtocol.AttemptedIffOffered`). Runs that fall in the gaps: `SubmitRuns.FlagWithoutAttempt`,
  `SubmitRuns.DegradedWithoutAttempt`.
- After the front-end guard takes the page to the chat root it does not look for activity again
  (`FrontEndGuard.IdleUnlessNavigated`). A page that stays busy stops the run as a failed submission without the flag,
  so the retry rule treats it as possibly sent (`FrontEndGuard.PrepareFrontEnd`).

## Model

| member | source | states |
|---|---|---|
| PoolRuns.RunSound | src/proxy-pool.js:220-335 | at every yield point of every interleaving: bound exits are in the inventory, the inventory respects its limit, marks and inventory together hold at most 5000 + limit ids, nobody waits without a refresh under way |
| PoolRuns.HandoutsNeverExceedEntries | src/proxy-pool.js:252-335 | per-session mode: hand-outs, counted per id, never exceed the entries of that id into the inventory, over all interleavings |
| PoolRuns.NoRepeatWithoutLeaving | src/proxy-pool.js:306-335 | per-session mode: between two hand-outs of an id some refresh ended that unmarked it, and the inventory did not hold it right after |
| PoolRuns.UnmarksIff | src/proxy-pool.js:220-242 | a step unmarks an id if and only if it is the end of a refresh whose prune evicts the exit or forgets the mark; the history forgets exactly the oldest ids without an exit until half the limit is left |
| ProxyPool.PruneUnmarksIff | src/proxy-pool.js:220-242 | the same for one prune |
| PoolRuns.RunPaced | src/proxy-pool.js:273-304 | at most one extraction is open; each starts at least the interval after the previous one ended, by success or failure |
| PoolRuns.WindowBound | src/proxy-pool.js:273-304 | any window of length T holds at most T / interval + 1 extraction starts, however many acquires run |
| PoolRuns.SettleFacts | src/proxy-pool.js:281-301 | a finished refresh leaves no expired exit, keeps marks of survivors, invents none, and keeps exactly the bindings of survivors |
| PoolRuns.DeliveryFacts | src/proxy-pool.js:306-335 | whoever gets an exit gets one of the inventory, unmarked in per-session mode, and the step marks or binds exactly it |
| PoolBindings.DeliveredLivesLongEnough | src/proxy-pool.js:139-142 | every exit handed out had the demanded life left at some instant of the step that handed it out |
| PoolBindings.WaitsOnlyWhenNothingServes | src/proxy-pool.js:309-326 | an acquire waits if and only if neither its binding nor anything in the inventory serves it |
| PoolBindings.RefusedOnlyWhenNothingServes | src/proxy-pool.js:323-333 | a resumed acquire is refused if and only if the refresh failed or nothing qualifies afterwards |
| PoolBindings.FreshBindingOneToOneIff | src/proxy-pool.js:252-265 | binding an unbound key keeps bindings one-to-one if and only if some qualifying exit is unbound |
| PoolBindings.KeysNeverShare | src/proxy-pool.js:252-335 | in a run where each pick finds more usable exits than bindings, no two keys ever share an exit |
| PoolBindings.StickyAcquire | src/proxy-pool.js:309-318 | a key bound to a long-enough-lived exit gets that exit and nothing else changes |
| PoolBindings.StickySession | src/proxy-pool.js:309-333 | the same over whole runs: until one of the listed events, every acquire of the key gets the bound exit |
| PoolBindings.RecurringIdsExhaustPool | src/proxy-source-http-api.js:444-448 | with recurring ids and no expiry a per-session pool hands out each id at most once in any run |
| PoolRecurrence.RecurringIdRefused | src/proxy-pool.js:306-335 | a run, for any two exits with one id: the first is handed out, the second arrives in the inventory, and the acquire that waited for it is refused |
| ProxyPool.SurvivorsFacts | src/proxy-pool.js:220-231 | pruning keeps exactly the newest unexpired exits up to the limit |
| ProxyPool.PruneMarks | src/proxy-pool.js:220-242 | a surviving exit keeps its mark, a dropped one loses it, no mark is invented |
| ProxyPool.PruneBounds | src/proxy-pool.js:232-238 | after pruning the ids held in memory are at most 5000 + limit |
| ProxyPool.PickFacts | src/proxy-pool.js:252-265 | a pick exists if and only if something qualifies, and it qualifies itself |
| ProxyPool.PickPrefersFree | src/proxy-pool.js:261-264 | for a key, an exit bound elsewhere is picked only when every qualifying exit is bound |
| ProxyPool.FirstCandidate | src/proxy-pool.js:252-260 | without a key the pick is the first qualifying exit in insertion order |
| PoolState.State.PruneState | src/proxy-pool.js:220-242 | the in-place deletion loops compute exactly the specified pruned pool |
| PoolState.State.PickUsable | src/proxy-pool.js:252-265 | the selection loop computes exactly the specified pick |
| PoolState.State.RefreshInventory | src/proxy-pool.js:273-278 | joins the refresh under way, waits out the interval or starts at once |
| PoolState.State.FinishRefresh | src/proxy-pool.js:286-301 | inserts all, dates the attempt on success and failure, clears the flight and prunes |
| PoolState.State.AcquireFromApi | src/proxy-pool.js:306-335 | the part before the wait: reuse, unbind, pick, mark or bind |
| PoolState.State.ReleaseSessionProxy | src/proxy-pool.js:469-485 | a failed exit leaves the inventory and every binding; a healthy one changes nothing |
| PoolResolution.NoSilentDirectConnection | src/proxy-pool.js:355-461 | direct if and only if no file, platform not served, or disabled and not required; every static exit returned is the pool's and lives long enough; an extracting pool hands over with the lifetime demanded |
| PoolResolution.ServedAtOnce | src/proxy-pool.js:410-461 | a caller sent to the inventory and served there gets an exit of it that lives as long as demanded, else waits under its own key and demand |
| PoolResolution.InventoryNeverGoesDirect | src/proxy-pool.js:320-333 | over every run, a caller who waited is connected through such an exit, or refused exactly when the refresh failed or nothing qualifies; never direct |
| PoolResolution.StaticRefusesOnlyWhenNothingServes | src/proxy-pool.js:150-157 | an enabled static pool refuses if and only if all its exits are too short-lived |
| PoolResolution.ResolversAgreeOnStaticPools | src/proxy-pool.js:355-442 | both resolvers give the same verdict on static pools under the same lifetime |
| AssignmentHash.StableHash | src/proxy-pool.js:124-132 | the loop computes the 32-bit FNV-1a hash, wrap-around included |
| AssignmentHash.SuffixKeepsHashesApart | src/proxy-pool.js:124-132 | appending the same text neither merges nor separates two hashes: every round is invertible |
| AssignmentHash.OneUnitApart | src/proxy-pool.js:124-132 | two texts that differ in exactly one code unit have different hashes |
| AssignmentHash.KeysCollideIff | src/proxy-pool.js:134-137 | two callers share a key if and only if slot and joined platform and account agree |
| AssignmentHash.BarredPlatformsCollide | src/proxy-pool.js:134-137 | a bar in a platform name: two different callers with one key |
| AssignmentHash.KeysDistinct | src/proxy-pool.js:134-137 | without a bar in platform names the key determines platform, account and slot |
| ExitExtraction.CollectExits | src/proxy-source-http-api.js:444-499 | the loop returns normally if and only if no item aborts, every kept one can be built and one is left; then the exits are the first survivor of every key, in order |
| ExitExtraction.ItemsConserved | src/proxy-source-http-api.js:444-499 | items = exits + rejections + repeats |
| ExitExtraction.KeptCount | src/proxy-source-http-api.js:478-480 | the kept keys are the first occurrences of all keys |
| ExitExtraction.DedupeKeyInjective | src/proxy-source-http-api.js:476-478 | the concatenated key separates exactly the (server, user) pairs |
| ExitExtraction.ExitsWellFormed | src/proxy-record.js:28-96 | exits are pairwise distinct in (server, user), have both or neither credential, and have not expired where expiry is declared |
| ProviderAnswer.ParseTextLines | src/proxy-source-http-api.js:312-336 | the items are those of all content lines, in order; the error is the first line that leaves a choice of layouts |
| ProviderAnswer.ListRoundTrip | src/proxy-source-http-api.js:312-336 | reading a printed list of endpoints gives hosts and ports back, whatever comments and blank lines stand between |
| ProviderAnswer.GetByPath | src/proxy-source-http-api.js:273-288 | the cursor loop computes the value along the path, nothing where a step is missing |
| ProviderAnswer.PathsCompose | src/proxy-source-http-api.js:273-288 | looking up a joined path is looking up its parts one after the other |
| HostLabels.HostMatchesIffLabelSuffix | src/url.js:68-70 | the string test holds if and only if the labels of the domain are a suffix of the labels of the host, for all strings |
| UrlIdentity.CanonicalizeUrl | src/url.js:107-118 | the in-place edits compute the canonical form, or none for what is not an http(s) URL |
| UrlIdentity.UrlObject.DeleteTrackingParams | src/url.js:112-114 | deleting by key while walking a copy of the keys leaves exactly the untracked parameters |
| UrlIdentity.UrlObject.SortSearchParams | src/url.js:97-105 | the parameters become the sorted ones; fewer than two stay as they are |
| UrlIdentity.CanonicalIdempotent | src/url.js:107-118 | canonicalising twice is canonicalising once |
| UrlIdentity.CanonicalConserves | src/url.js:107-118 | exactly the fragment and the tracking parameters are lost; the rest is a permutation in order |
| UrlIdentity.CanonicalOrderFree | src/url.js:92-105 | URLs that differ in parameter order only have one canonical form, when no two parameters tie |
| UrlIdentity.OrderIrrelevantIffNoTies | src/url.js:92-105 | order never matters if and only if no two different surviving parameters collate equal |
| UrlIdentity.ExternalHasCanonicalForm | src/url.js:107-129 | whatever passes the external-host test has a canonical form |
| EvidenceWalk.WalkExact | src/network-evidence.js:171-208 | the walk emits something if and only if a path of at most the permitted depth leads to it and passes through a search block or a search-result member |
| EvidenceWalk.ContextOnlyAdds | src/network-evidence.js:171-208 | turning search context on never loses evidence |
| EvidenceExtraction.Accumulator.Walk | src/network-evidence.js:171-208 | the recursive walk absorbs exactly what the declarative emission lists, in order |
| EvidenceExtraction.Accumulator.AddQuery | src/network-evidence.js:145-152 | adds the compacted texts whose key is new, in order |
| EvidenceExtraction.Accumulator.AddSource | src/network-evidence.js:154-168 | stores a source, or fills in what is missing in the stored one |
| EvidenceExtraction.ResponseCandidates | src/network-evidence.js:71-79 | the candidates are the first occurrences among the text, its event chunks and its bracketed lines |
| EvidenceExtraction.ExtractSearchEvidence | src/network-evidence.js:139-223 | the three results are those of the specification, missing positions replaced by ranks |
| EvidenceExtraction.ExtractionExact | src/network-evidence.js:139-223 | a URL or query key is in the result if and only if some candidate holds it on a path through search context |
| EvidenceExtraction.RepeatsAreInvisible | src/network-evidence.js:71-79 | dropping repeated candidates changes no query and no source, only the count of blocks |
| EvidenceMerge.AccumulatorIsFirstKnown | src/network-evidence.js:154-168 | URLs in first-seen order; every field of a URL is its first known value |
| EvidenceMerge.ReaddingSources | src/network-evidence.js:154-168 | adding sources again, in any order and number, changes nothing |
| EvidenceMerge.ReaddingQueries | src/network-evidence.js:145-152 | the same for queries |
| EvidenceCollector.CollectorIsFlat | src/network-evidence.js:249-262 | merging response by response gives the same URLs, order, title, source name, summary, raw URL and domain as one flat extraction |
| EvidenceCollector.CollectedPosition | src/network-evidence.js:370-390 | the position of a URL is the one stated by, else its rank in, the first response that has it |
| EvidenceCollector.PositionsAgreeIff | src/network-evidence.js:216-222 | the collector shows the position of one flat extraction if and only if the first response with the URL states one, or the first later one, else the overall rank, equals the rank there |
| EvidenceCollector.PositionsDiffer | src/network-evidence.js:216-222 | two responses on which the collector's position is not the flat one |
| EvidenceCollector.QueriesAreFlatWhen | src/network-evidence.js:378-388 | per list of responses: collected queries are the flat ones that pass if and only if every key that passes by its first query in some response passes by its first query overall |
| EvidenceCollector.QueriesAreFlatIff | src/network-evidence.js:378-388 | on all lists of responses at once, if and only if the test goes by the lower-cased text |
| EvidenceCollector.AgreementDependsOnLowering | src/network-evidence.js:500-511 | true of ASCII lower-casing; false of any that sends the Kelvin sign to `k` |
| PlausibleQuery.PlausibleIgnoresAsciiCase | src/network-evidence.js:500-511 | plausibility of a query does not depend on ASCII case |
| EvidenceCapture.Collector.Absorb | src/network-evidence.js:370-392 | absorbing a text changes the collector as specified; the result says whether the admitted text held evidence |
| EvidenceCapture.RunExact | src/network-evidence.js:370-392 | over every run of texts the collected URLs are exactly those reachable in an admitted text, and the sources are the flat ones up to positions |
| EvidenceCapture.AbsorbingAgain | src/network-evidence.js:370-392 | a text absorbed at any point of a run changes no query and no source when it comes again |
| EvidenceCapture.GateSkipsReachableEvidence | src/network-evidence.js:9-9 | whatever text parses to a `search_results` member alone and carries no marker leaves the collector empty, although its source is reachable |
| EvidenceCapture.GateSkipsSample | src/network-evidence.js:9-9 | such a text, written out, for every address without a marker in it: the pattern rejects it and its source is lost |
| SseChunks.SseDataChunks | src/network-evidence.js:56-69 | the loop computes the specified chunks |
| SseChunks.RoundTripIff | src/network-evidence.js:56-69 | printing payloads as events and splitting gives them back if and only if each is not empty, not the end marker, and has no line that starts with white space or ends in a carriage return |
| SseChunks.CleanIff | src/network-evidence.js:62-66 | the splitter's clean-up leaves a payload alone if and only if none of its lines starts with white space or ends in a carriage return |
| SseChunks.NoiseIsInvisible | src/network-evidence.js:60-66 | a comment, event or id line inserted at any line boundary of any stream changes no chunk |
| SseChunks.UnterminatedEventDelivered | src/network-evidence.js:67-68 | behind any properly ended stream, an event without its blank line is delivered, while the format discards it |
| SseChunks.AgreesWithFormatIff | src/network-evidence.js:56-69 | on every stream whose lone carriage returns occur in noise only and whose bare `data` lines stand alone in their events: the splitter gives what the event stream format dispatches if and only if no ended event has white space beyond the one dropped space and nothing is left over |
| SseChunks.AgreeByChance | src/network-evidence.js:60-68 | lines with bare `data` from which splitter and format make the same chunk out of different events |
| BodyReader.ReadBodyBounded | src/network-evidence.js:271-301 | over any stream, stop time and failure point: a prefix within the bound is delivered; ended if and only if nothing got in the way; ended excludes truncated and failed, and every other ending has its cause |
| AnswerWait.WaitForAnswer | src/doubao.js:1577-1755 | the outcome of every run of polls is the one its meaning describes, at the first poll that decides; a run with an answer seen is never given up as dropped |
| AnswerWait.OutcomeIsDetermined | src/doubao.js:1577-1755 | the meanings exclude one another: a run has exactly one outcome |
| AnswerWait.AnswersAreTrustworthy | src/doubao.js:1605-1723 | a returned answer was identical in the last `stablePolls` polls, is not being written, has 12 characters, is no user text, baseline or placeholder, and no earlier poll would have done |
| AnswerWait.NoOutputMeansNothingAcceptable | src/doubao.js:1650-1755 | every zero-output error means that no poll showed an acceptable candidate, the deciding poll included |
| AnswerWait.TimeoutKeepsTheLongest | src/doubao.js:1728-1734 | the text of a timeout is the longest answer seen |
| SubmitProtocol.Page.ExecutePrompt | src/doubao.js:2221-2288 | over every page behaviour the run keeps the safety predicate; the flag is exactly "handed over and not refused"; every session, reset, fill and exception error has its cause in the log; an answer, a missing answer and a timeout are what the wait on the page ended in; the log of calls and the page's replies determine what was noted and attempted; on pages that fail at once, behave well or show nothing the result is forced |
| SubmitProtocol.AttemptedIffOffered | src/doubao.js:916-938 | over every page behaviour, in terms of the page's replies: a run tried the button if and only if some candidate was visible and enabled when it was looked at, and Enter if and only if the input box was there when it was looked for; unless a click was completed every announced candidate was looked at; a flagged run without an attempt is one that was handed over, not refused and shown neither |
| SubmitProtocol.SendsOnlyAfterReading | src/doubao.js:1389-1463 | in terms of the page's replies: before any click or press the page showed two polls in a row without an answer, a healthy session, the prompt in the box at two readings in a row modulo white space, and then the answers so far; after those nothing is read for the record |
| PageLog.OffersTaken | src/doubao.js:916-938 | on every run of the call log the attempts are, one by one, the enabled candidates and boxes that the page showed, except for one still to be taken up |
| PageLog.CandidatesLookedAt | src/doubao.js:916-938 | unless a click is completed, exactly as many candidates are looked at as the page announced, at most ten per selector |
| SubmitProtocol.ReturnedAnswerIsNew | src/doubao.js:2229-2240 | end to end: the answer returned was stable and finished, has 12 characters, and is no placeholder and none of the texts read before the send |
| SubmitRuns.RunOnSmoothPage | src/doubao.js:2221-2288 | on every page without a dialog, with a button behind the first selector that can be clicked at once, and a wait that ends in an answer, that answer is returned, sent by one click |
| SubmitRuns.RunOnBarrenPage | src/doubao.js:2242-2270 | on every page without a dialog, with no button for the 20 seconds of one round and no box after that, that still confirms and answers, the run is reported as degraded and nothing was pressed |
| SubmitRuns.FlagWithoutAttempt | src/doubao.js:2282-2287 | a run, for every prompt, in the gap of the theorem above: the input box query throws, the error says submitted, nothing was attempted |
| SubmitRuns.DegradedWithoutAttempt | src/doubao.js:1451-1463 | a run, for every prompt, in the other gap: reported as sent by Enter, and nothing was pressed |
| SubmitProtocol.ExecutionIsSafe | src/doubao.js:2221-2288 | at most one completed send and nothing after it; the flag is false only if nothing was attempted; a permitted retry repeats nothing that was attempted, two codes excepted |
| SubmitProtocol.Page.SubmitPrompt | src/doubao.js:1389-1463 | attempts come only after two matching read-backs and the reading of the answers so far; a refused fill means no attempt |
| SubmitProtocol.Page.FillVerifiedPrompt | src/doubao.js:1072-1144 | success means the last two read-backs match modulo white space, and a box that takes the prompt is enough for it; giving up carries the flag, a page exception does not |
| SubmitProtocol.Page.TryClickSend | src/doubao.js:889-950 | true means exactly one completed click, the last attempt; otherwise only missed clicks |
| SubmitProtocol.Page.Send | src/doubao.js:1430-1463 | button, again after closing a dialog, then Enter: at most one completes, and true means the button |
| SubmitProtocol.Page.WaitForEmptyConversation | src/doubao.js:709-723 | confirms if and only if two polls in a row show no answer |
| SubmitProtocol.Page.RequireHealthySession | src/doubao.js:509-554 | passes only when the last look was healthy; each refusal names what the last look showed |
| Citations.NormalizeCitationRows | src/doubao.js:1967-2015 | raw = captured + internal + unparseable + duplicate with unparseable 0; canonical URLs are the first occurrences, ranked 1..n, each from its first row and first relation |
| Citations.CitedOnce | src/doubao.js:1967-2015 | canonical URLs are pairwise distinct, are exactly those of the external rows, and positions are 1..n |
| Citations.MatchedIffRelated | src/doubao.js:1968-2006 | a citation is matched if and only if some relation has its canonical URL |
| Citations.RelationFound | src/doubao.js:1968-1972 | the relation used is the first with the URL |
| Citations.ExtractVisibleCitations | src/doubao.js:2047-2178 | found if and only if there are citations; which look and which rows are used; an announced count of zero drops all; when a mismatch is reported |
| FrontEndGuard.PrepareFrontEnd | src/front-end-guard.js:182-273 | ready if and only if the page was stably idle with no blocking session and in the end positively usable; a blocking session stops it with its own code, running out of time with a failed submission; nothing is flagged as submitted |
| FrontEndGuard.DecisionIsUnique | src/front-end-guard.js:205-219 | over every sequence of looks at most one look decides |
| FrontEndGuard.PassedPagesWereIdle | src/front-end-guard.js:208-219 | a page that passes was idle for the required looks in a row, and no look showed a blocking session |
| FrontEndGuard.IdleUnlessNavigated | src/front-end-guard.js:236-247 | the page a run starts on is idle unless it was taken to the chat root, where it may be busy |

## Left out

- Error codes and retry rules of the other providers; only the codes this provider throws are modelled.
- Browser and DOM code: selectors, hydration, promotion dialogs and `page.evaluate` bodies appear only as observations. Closing a dialog is taken to send nothing, and its first look to be able to throw, which the source swallows.
- Cooperation of the page: the result itself is forced on the pages of `SubmitRuns` only; for a button that appears later or behind a dialog the theorems say what is tried, not what the run ends in.
- SseChunks.AgreesWithFormatIff: does not say when the splitter agrees where data stands beside a lone carriage return or beside a bare `data` line, because there equal results can come from different events; nor about a byte order mark at the start, since the text is taken after decoding.
- The capture pipeline around the reader (`captureResponse`): endpoint filters, byte decoding and the growing buffer that is absorbed piece by piece.
- Text compaction, integer recognition of positions, locale lower-casing and number formatting are parameters of the walk.
- The configuration validators, the field mapping of `parseJsonItems` and the formats of `parseExpiry`: reading a number or an expiry is a parameter.
- ExitExtraction.CollectExits: the verdict of an item is computed before the loop over items and not inside it, so an abort is not seen to skip the reading of later items; results are the same.
- Several pools per file and reloading of the configuration between calls; a release finds its state by file prefix.
- Percent-encoding: canonical URLs are compared as records, since a URL with fewer than two parameters is not re-serialised.
- `siteRuleAlias`, fingerprint rotation, the API server, workers, egress, storage and the other providers: easy or outside the core.
- The diagnostic strings of `buildCounts` and of the visible result.
