# Verification model of the credential verifier

This project models the verification pipeline of the verifier library in Dafny and proves what its documentation and
design promise. Each module follows one component of the library. Code that updates state step by step is a method or a
class with loops and fields, and its contract ties the new state to a specification function. What is promised is then
proved about that function.

Everything the library does not own is a parameter that may answer as it likes: the checks of a suite, clocks, the
network, signature mathematics, the URL parser, the status library. A statement about "any run" ranges over all of these.

| module | what it models |
|---|---|
| Results, Orchestration, Reports, Halting, RowIds, Phases, PhasePasses | rows and their ids; the suite runner with its latched halt, phase filter, throwing predicates and synthetic rows; its report in terms of suites, subject and answers alone; what holds over every run, when the rows' ids are fixed, and how filtered runs compare with the full one |
| FoldResults, Summaries, VerifierCalls, IdNamespace | folding rows into summaries, and what a summary says of its rows; a whole call on a credential or a presentation; one timing around everything; the id namespace |
| JsonText, RegistryCacheKey, CacheService, RegistryLookup, IssuerLookup | the DID-result cache key as a faithful name, and a cached, short-circuiting walk that agrees with the registries as a recent walk found them |
| Oidf, OidfLookup, VcRecognition, Recognition | the two signed statements of an OpenID Federation lookup, verified again on every cache hit, and what a remembered match rests on; the recognition handler, and the cycle in which it re-enters the verifier |
| UrlPolicy, HttpGet, UrlVerdicts | which URLs may be fetched, from the URL to the verdict; the bounded redirect loop; the size cap |
| CryptoDispatch, ProofSuite, ProofSets | proof sets and their combined verdict; the memo two checks share in one run; what the services are shown and what their replies make of the document |
| StatusLists | the begin, record and take store two checks share, and both checks |
| JsonPointer, VcStructure, StructureReport | the JSON Pointer printer and its inverse; the structural rules; every reported place resolves |
| Strings, JsonValues, Options | text splitting and numerals; parsed JSON; optional values |

Where the code and its documentation disagree, the model follows the code:

- `src/types/check.ts:156` says that the union of two phase-filtered passes is the full pass's report. That holds exactly
  when the full pass's halt, if there is one, spares every pass: it lies in a suite the pass keeps, or the pass has nothing
  to report after it (`Phases.UnionOfPasses`; `Phases.UnionOfPassesIsNotTheFullReport` is a case where it fails).
  `PhasePasses.UnionBeforehand` says for which suites and passes it holds in every run. The
  verdict is another matter: `Phases.PassesDecideTheFullVerdict` holds without any condition on halting.
- `README.md:800-803` describes a summary's rows by an id prefix. `IdNamespace.PrefixRecipeBeforehand` says for which
  suites that works in every run; `IdNamespace.TrustCapturesRegistry` is a run in which the opt-in `trust` suite captures
  the row of `trust.registry`.
- The comment at `src/run-suites.ts:310-317` speaks of a single sample of each clock for a synthetic row. The code
  samples twice, and so does the model.
- The row ids of a run need not be fixed once a suite predicate throws. `RowIds.IdsFixedIff` says exactly when they are.
- The comment at `src/suites/status/status-lists.ts:118-119` says that the status store never outlives a run. An empty
  map does, after a run in which `status.bitstring` began but no checked entry names a list
  (`StatusLists.UnlistedLeavesAMap`); `StatusLists.StatusSuite.RunSuite` says exactly when. No record ever stays.
- Each proof that could not be checked is documented to give one problem
  (`src/suites/proof/unsupported-proofs-check.ts:20-21`). It gives as many as the service that took it rejected it with
  (`ProofSuite.WarningsPerProof`; `ProofSuite.TwoWarningsForOneProof` is a case of two).
- A cached recognition credential is used without consulting `acceptedIssuers` again, and the cache is keyed by URL
  alone. So a registry may answer from a credential whose issuer only another registry with its URL accepts
  (`VcRecognition.SharedUrlSharesCredential`), and two registries that differ only in accepted issuers need not answer
  differently, as the comment at `src/util/registry-cache-key.ts:11-12` has it
  (`VcRecognition.SecondRegistryFindsByTheFirst`). `VcRecognition.AcceptedIffAgreePerUrl` says exactly for which sets of
  registries every answer rests on an issuer the answering registry accepts.
- A recognition credential's lifetime is worked out after it was verified, and counted from the write. So it may be kept
  past its `validUntil`, against `src/services/registry-handlers/vc-recognition-handler.ts:18-20`; one that has
  expired by then is even kept the full hour (`VcRecognition.ExpiredIsKeptAnHour`). `VcRecognition.KeptWithinValidityIff`
  says exactly when it is not kept too long.
- A cached federation token may be kept past its `exp`, against `src/services/registry-handlers/oidf-handler.ts:33-34`: its
  lifetime is bounded as of the start of the lookup, and counted from the write (`Oidf.KeptPastExp`). `Oidf.KeptPastExpIff`
  says exactly when. It does no harm by itself, since the handler's verdict rests on unexpired tokens whatever
  the cache holds (`Oidf.OidfSound`).
- That handler caches no verdict, as its comment says, but the lookup around it does. A remembered result may say what the
  registries no longer say (`IssuerLookup.StaleAnswer`), and may report a federation match whose statement has expired
  since (`OidfLookup.MatchOutlivesStatement`). `IssuerLookup.CurrentIff` says exactly when an answer is sure to agree with the
  registries at the time of the call. Otherwise `IssuerLookup.LookupSequence` and `OidfLookup.OidfSequence`
  bound its age by an hour, or a minute when it is incomplete.

## Model

| member | source | states |
|---|---|---|
| Results.RowIdExtendsSummaryId | src/fold-results.ts:74-86 | a row's id is its suite's summary id, a dot and the local part, under prefix stripping and the collapse of equal phase and suite; with no local part left the two ids coincide |
| Results.IdExactly | src/fold-results.ts:74-86 | an id is the phase's name, the suite unless it is called like the phase, and the check's id without its suite, dots between and empty parts dropped |
| Orchestration.SyntheticResult | src/run-suites.ts:319-333 | a row the runner makes up carries the check's flags and id, and with timing on spans two consecutive readings of the clocks |
| Orchestration.RunCheck | src/run-suites.ts:195-239 | one check: passed over for another subject type, listed as not run after a halt, else executed once, timed, reported, and latched as the halt if its failure halts |
| Orchestration.RunSuites | src/run-suites.ts:133-243 | the nested loops with their pushes and latch produce exactly the rows, executions and clock readings of the specification `Run`, for any checks and clock |
| Reports.ReportExactly | src/run-suites.ts:71-243 | every run's report, suite by suite, without the runner's own predicates: nothing for a suite the phases drop; where the predicate holds, one row for each check whose `appliesTo` is missing, empty or shares a type with the subject, and for no other, in order and with the check's flags, executed unless an earlier row halts and not run otherwise; one row or none where it declines; where it throws, a failure that is fatal iff a fatal check is for the subject, or the checks as not run |
| Reports.RowsTimed | src/run-suites.ts:319-382 | with timing on the clock is read twice for every row, one row after the other, and each row carries those two readings; with timing off no row is timed |
| Halting.AtMostOneHalt | src/run-suites.ts:142-242 | at most one halting failure per run; every later row is a skip, either not-run naming that check or an explicitly queued suite's `.applies` skip; nothing executes after it; checks execute in list order, each at most once |
| Halting.IdsIndependentOfChecks | src/run-suites.ts:155-239 | with the same answering predicates the sequence of row ids is the same whatever the checks return or throw |
| Halting.ThrowingPredicateChangesIds | src/run-suites.ts:152-177 | a case of a throwing predicate with which the number of rows depends on what an earlier check returned |
| RowIds.HaltedIff | src/run-suites.ts:145-239 | a run is halted before a suite iff an earlier suite halts: its throw does, or one of its checks fails and halts |
| RowIds.IdsFixedIff | src/run-suites.ts:152-239 | the rows stand in the same places, by suite and id, whatever the checks return or throw, iff for every kept suite whose predicate throws: nothing before it may halt but throws that always do, or an earlier throw halts for certain, or its checks are listed just as its throw is |
| Phases.ExpandPhases | src/verifier.ts:364-380 | a requested semantic phase brings recognition with it, added at the end when it is missing; nothing else is added, lost or moved |
| Phases.VerifiedIffNoKeptSuiteFails | src/verifier.ts:350-352 | `verified` equals a definition that never mentions halting: no suite kept by the filter would fail the subject on its own |
| Phases.PassesDecideTheFullVerdict | src/run-suites.ts:71-82 | for phase sets that together cover every tagged suite, the full pass is verified iff every filtered pass is, wherever any of them halts |
| Phases.FilteredReport | src/types/check.ts:156 | a filtered run's rows are the full run's rows for the kept suites if the full run did not halt, or halted in a kept suite, or every kept suite after the halting one had nothing to report; and only if, for checks that do not return the runner's own not-run code |
| Phases.UnionOfPasses | src/types/check.ts:146-157 | passes that together cover the suites report, together, exactly what the full run reports if its halt spares each of them in that sense; and only if, for such checks |
| PhasePasses.UnionBeforehand | src/types/check.ts:146-157 | covering passes report together what the full run reports, in every run with such checks, iff no pass drops a suite that can halt while it keeps a later one that can have a row |
| Phases.UnionOfPassesIsNotTheFullReport | src/types/check.ts:146-157 | two passes over covering phases whose union is not the full report |
| FoldResults.GroupChecksBySuite | src/fold-results.ts:107-118 | the groups are each suite's rows in order, and their order is that of first appearance |
| FoldResults.GroupsPartition | src/fold-results.ts:107-118 | grouping is a stable partition: groups in first-seen order, none empty, no row lost or repeated |
| FoldResults.TallySuite | src/fold-results.ts:264-285 | each count is the number of rows of its kind, the four add up to the rows, and the halting check is the one named by the first not-run row that names one |
| FoldResults.RollupSuiteTiming | src/fold-results.ts:186-207 | the window spans the earliest start to the latest end, and the duration is the sum of the rows' durations |
| FoldResults.SummarizeSuite | src/fold-results.ts:129-168 | a summary's counts, status, verdict, first fatal failure and timing are those of its rows, and its message tells the declined predicate, the halting check or the counts, each exactly when it should |
| Summaries.SummaryExactly | src/fold-results.ts:129-333 | a summary counts the rows of each outcome; it is mixed iff some passed and some failed, and so on; it is verified iff no row fails fatally, and names the first that does; and which of the three messages it carries, and what that names |
| Summaries.PhaseOfLast | src/fold-results.ts:92-100 | a summary's phase is that of the last suite with its id |
| FoldResults.FoldCheckResults | src/fold-results.ts:34-53 | one summary per group, in order, each summarizing exactly its group; the rows pass through unchanged |
| FoldResults.FoldVerdict | src/fold-results.ts:34-53 | the report is verified iff every summary is |
| FoldResults.FoldConserves | src/fold-results.ts:129-207 | summary counts add up to the rows, summary durations to the row durations, and verified iff every summary is iff no summary names a fatal failure |
| VerifierCalls.RowsFitInCall | src/verifier.ts:571-595 | with a monotone clock the durations of a run's rows add up to no more than the call around it |
| VerifierCalls.PipelineExactly | src/verifier.ts:141-166 | a call runs the built-in suites and then its own, which alone count as explicitly queued, for its own kind of subject, with the phases and timing it asks for or else the verifier's |
| VerifierCalls.FailEarly | src/verifier.ts:459-507 | a call that ends before any suite runs has one fatal row, timed when the call is, under a sound summary, within the time that passed |
| VerifierCalls.RunAndFold | src/verifier.ts:141-189 | after the context's own reading of the clock, one subject's rows are the run's, their verdict is the suites' own, and the summaries are sound and took no longer than the time that passed |
| VerifierCalls.Verify | src/verifier.ts:129-190 | one call: its rows are the run's or the one fatal parse failure, under its fixed id, its summaries are sound, and with timing on it spans its first to its last clock reading and lasts at least as long as its summaries |
| VerifierCalls.VerifyEmbedded | src/verifier.ts:267-290 | embedded credentials are judged one after the other on one clock, each by a call of its own with the presentation's timing decision, and their durations add up to no more than the time that passed |
| VerifierCalls.PropagatedExactly | src/verifier.ts:268-284 | an embedded credential is gated as itself, and judged with the presentation call's suites, phases and timing |
| VerifierCalls.OptionsExactly | src/verifier.ts:442-453 | the options pass iff there is a challenge that is not empty, or neither a challenge nor a domain |
| VerifierCalls.VerifyPresentation | src/verifier.ts:192-305 | a presentation is verified iff its options are valid, its own suites pass and every embedded credential's own call does; its own report is sound whichever way the call ended, and is one fatal row, for the envelope or the signature, when it ended early; and its timing, on every path, is at least the sum of its own summaries' durations and all its credentials' durations |
| IdNamespace.PrefixRecipe | README.md:800-803 | in a run, the rows under a summary's id and a dot are exactly that summary's rows iff no summary's id and dot begins another's |
| IdNamespace.RecipesAgree | README.md:800-803 | read over the suites that have rows, the recipe says the same as over the summaries |
| IdNamespace.PrefixRecipeBeforehand | README.md:800-803 | the recipe works in every run of a pipeline iff no summary id and dot, of a suite that can have a row, begins another's |
| IdNamespace.TrustCapturesRegistry | src/suites/trust/index.ts:35-43 | with the built-in ids there is a run in which the summary `trust` captures the row of `trust.registry` |
| JsonText.ReadBack | src/util/registry-cache-key.ts:16-27 | an independent reader of section 7 of RFC 8259 reads back every written string, lone surrogates and control characters included |
| JsonText.StringifyInjective | src/util/registry-cache-key.ts:16-27 | two values of strings and nested arrays with the same text are equal |
| JsonText.EscapedExactly | src/util/registry-cache-key.ts:16-27 | a unit is written as itself iff it is no quotation mark, reverse solidus, control character or surrogate; the others by the two-character escape where there is one, else by four lower-case hexadecimal digits |
| JsonText.BodyExactly | src/util/registry-cache-key.ts:16-27 | a high surrogate followed by a low one is written as it is, every other unit by itself |
| JsonText.StringifyExactly | src/util/registry-cache-key.ts:16-27 | strings stand in quotation marks, arrays in brackets with commas between |
| RegistryCacheKey.SortDecides | src/util/registry-cache-key.ts:22-26 | sorting by UTF-16 units is a complete invariant of a multiset of strings |
| RegistryCacheKey.IdFaithful | src/util/registry-cache-key.ts:16-26 | a registry's id determines type, name, url and the multiset of accepted issuers, and nothing more |
| RegistryCacheKey.ListKeyFaithful | src/util/registry-cache-key.ts:16-27 | two lists get the same key iff they are equal as multisets of registries |
| RegistryCacheKey.NotASuffix | src/services/registry-lookup.ts:97 | no list's key is a proper suffix of another's, so a DID cannot run into it |
| RegistryCacheKey.KeyIsFaithful | src/services/registry-lookup.ts:97 | two lookups get the same full key iff their DIDs are equal and their lists are equal as multisets |
| RegistryCacheKey.NamespacesDisjoint | src/services/registry-lookup.ts:60-65 | a result key never equals a key of any of the handlers that share the cache |
| CacheService.InMemoryCache.Get | src/services/cache-service/in-memory-cache-service.ts:20-34 | a read yields the live entry; an expired one is removed and reads as a miss, all others stay |
| CacheService.InMemoryCache.Set | src/services/cache-service/in-memory-cache-service.ts:36-41 | a write replaces one entry; only a positive lifetime gives it an expiry |
| CacheService.LifetimeOf | src/services/cache-service/in-memory-cache-service.ts:20-41 | an entry is readable up to its lifetime and not after; without a positive lifetime, for ever |
| RegistryLookup.AgreesForSameRegistries | src/util/registry-cache-key.ts:1-15 | an answer that agrees with a list agrees with every permutation of it |
| RegistryLookup.WalkAgrees | src/services/registry-lookup.ts:122-146 | a completed walk, stopped early or not, says found iff some registry lists the DID, its matches are real, and when it says not found every registry answered not-found or is listed unchecked |
| RegistryLookup.WalkExactly | src/services/registry-lookup.ts:119-146 | an exhaustive walk throws iff a handler does, and else reports every match and every unchecked registry in order; another one stops at the first registry that finds the DID or throws, with that match and the unchecked ones before it |
| IssuerLookup.LookupService.VisitRegistries | src/services/registry-lookup.ts:119-138 | the loop with its pushes and early break computes the specification walk; a throwing handler ends it without a result |
| IssuerLookup.LookupService.WalkAndStore | src/services/registry-lookup.ts:119-155 | the walk's result is remembered for an hour, or a minute when a registry is unchecked, and a copy is handed out |
| IssuerLookup.LookupService.Lookup | src/services/registry-lookup.ts:92-155 | the answer is the live remembered one if there is one and the lookup is not fresh, else exactly the walk; it agrees with the registries, in the order given, as this walk or one no older than the answer's lifetime found them; and it is a deep copy: no list, match or reference in it is an object of the cache |
| IssuerLookup.LookupSequence | src/services/registry-lookup.ts:92-155 | over any sequence of lookups, with handlers that change their answers, any options and times, and every caller overwriting every object it got, each answer agrees with its own registries as its own walk found them, or an earlier one at most an hour old, a minute when incomplete |
| IssuerLookup.CurrentIff | src/services/registry-lookup.ts:97-105 | a lookup's answer agrees with the registries at the time of the call, whatever they say then, iff it recalls no live answer or there are no registries |
| IssuerLookup.StaleAnswer | src/services/registry-lookup.ts:97-105 | the failing family: within the hour, a lookup still finds a DID that its registry no longer lists |
| IssuerLookup.IssuerRegistryCheck | src/suites/registry/issuer-registry-check.ts:49-186 | as the walk behind the answer found the registries: registered iff some registry listed the issuer; else undetermined iff none answered; else not registered, with the exact numbers that answered and did not |
| IssuerLookup.WalkThrows | src/suites/registry/issuer-registry-check.ts:171-184 | a lookup fails only if some registry's handler throws |
| Oidf.VerifyJwsExactly | src/services/registry-handlers/jws-verify.ts:39-97 | a token verifies iff it has no `crit`, the required `typ` and a signature under an eligible key: one the header names, or any compatible one when it names none |
| Oidf.SignedExactly | src/services/registry-handlers/jws-verify.ts:39-145 | signed means: three non-empty parts between two dots, decoding to objects and a signature; no `crit`, the required `typ`, one of the two algorithms; and a key of the set, of the right type and curve, named by `kid` if any such key is, that verifies it over the first two parts |
| Oidf.FirstPositiveWins | src/services/registry-handlers/cache-ttl.ts:51-58 | the lifetime is the first positive one among the sources, and the default exactly when there is none |
| Oidf.TtlBoundedByExp | src/services/registry-handlers/oidf-handler.ts:264-269 | no longer than the token had left when the lookup began, nor than `max-age` or the default, and positive while anything was left |
| Oidf.KeptPastExpIff | src/services/registry-handlers/oidf-handler.ts:33-34 | an entry ends no later than its token iff no time passed between the lookup's start and the write, or the lifetime wanted is within what the token has left at the write; it never ends later by more than that time |
| Oidf.KeptPastExp | src/services/registry-handlers/oidf-handler.ts:264-269 | an input for which the entry ends half a second after its token |
| Oidf.ConfigurationExactly | src/services/registry-handlers/oidf-handler.ts:178-215 | a configuration is accepted iff it is signed under its own keys, about itself, has a fetch endpoint and is unexpired now |
| Oidf.StatementExactly | src/services/registry-handlers/oidf-handler.ts:219-240 | a statement is accepted iff it is signed under the anchor's keys, issued by the anchor about the DID, and unexpired now |
| Oidf.OidfSound | src/services/registry-handlers/oidf-handler.ts:56-125 | over any cache contents, found implies a trusted anchor and a trusted statement, both unexpired at this lookup; not found implies a 404 from a trusted anchor's endpoint |
| Oidf.VerdictExactly | src/services/registry-handlers/oidf-handler.ts:56-172 | with the anchor in force (the live cached token if it still is one, else the one fetched): found iff a live or a successfully fetched token is a statement; not found iff no live token is and the endpoint answers 404; unchecked otherwise |
| Oidf.GetVerifiedEntityConfiguration | src/services/registry-handlers/oidf-handler.ts:132-172 | the anchor comes from the cached token verified again or from a fetch, and only a verified one is written, under its own key, for a positive time from the write that is within what the token had left when the lookup began |
| Oidf.AnchorIsKept | src/services/registry-handlers/oidf-handler.ts:132-172 | the cache after the anchor was looked up: a fetched anchor is in it, until `max-age` or its expiry; otherwise only an expired entry is gone |
| Oidf.LookupOidf | src/services/registry-handlers/oidf-handler.ts:56-125 | the answer is the verdict over what the cache held, and every entry written verified first and lives, from its own write, for a positive time within what its token had left when the lookup began |
| Oidf.StatementIsKept | src/services/registry-handlers/oidf-handler.ts:82-125 | the same of the statement |
| OidfLookup.MatchesRest | src/services/registry-handlers/oidf-handler.ts:33-37 | in an answer that agrees with handlers answering by the federation verdict, every federation match rests on a trusted anchor and statement, unexpired at the handler's own reading of the clock |
| OidfLookup.CurrentMatches | src/services/registry-lookup.ts:97-155 | a lookup that recalls no live answer reports a federation match only on an anchor and statement unexpired at this call |
| OidfLookup.OidfSequence | src/services/registry-lookup.ts:92-155 | over any sequence of lookups every federation match rests on an anchor and statement unexpired when this call's handler judged them, or an earlier call's whose result was stored within the answer's lifetime |
| OidfLookup.MatchOutlivesStatement | src/services/registry-handlers/oidf-handler.ts:33-34 | a federation, a statement good for a second, and lookups that still find the DID at any time in the hour after |
| UrlPolicy.MaskTestIsRangeTest | src/services/http-get-service/url-policy.ts:81-112 | for every 32-bit address the mask test refuses iff the address lies in one of the eleven intervals |
| UrlPolicy.EmbeddedFormsAgree | src/services/http-get-service/url-policy.ts:122-143 | the IPv4-mapped, IPv4-compatible, NAT64 and 6to4 forms of every IPv4 address, with any trailing 6to4 groups, get that address's verdict |
| UrlPolicy.OtherIpv6Verdict | src/services/http-get-service/url-policy.ts:144-159 | every other IPv6 address is refused iff it is unique local, link-local, site-local, multicast or local-use NAT64 |
| UrlPolicy.ExpandPlain | src/services/http-get-service/url-policy.ts:167-177 | expanding eight printed groups gives those groups |
| UrlPolicy.ExpandElided | src/services/http-get-service/url-policy.ts:167-177 | expanding a text with any run of zero groups elided, leading, trailing, middle or all, gives the groups |
| UrlPolicy.Ipv4Injective | src/services/http-get-service/url-policy.ts:114-120 | the integer of an address determines its octets, up to 255 |
| UrlPolicy.DottedVerdict | src/services/http-get-service/url-policy.ts:58-60 | the dotted text of every address is judged as that address |
| UrlPolicy.BracketedVerdict | src/services/http-get-service/url-policy.ts:62-64 | a bracketed literal is judged as the literal inside |
| UrlPolicy.HostFormsAgree | src/services/http-get-service/url-policy.ts:28-67 | from host text to verdict, an IPv4 address and every embedding IPv6 text of it get the same answer, however zero groups are written |
| UrlVerdicts.SecureVerdict | src/services/http-get-service/url-policy.ts:28-67 | with the defaults: a URL that does not parse or is not https is refused; a dotted address is refused iff it lies in the eleven ranges; an IPv6 text, plain or elided, in any case, iff the address it carries does, or it is not for public use; `localhost` and every name below it, in any case and with or without a final dot, is refused; any other name is allowed |
| UrlVerdicts.InsecureVerdict | src/services/http-get-service/url-policy.ts:38-42 | with `allowInsecure` a URL is allowed iff it parses and its scheme is http or https |
| HttpGet.EncodedBounds | src/services/http-get-service/builtin-http-get-service.ts:217-226 | a text's UTF-8 length lies between its UTF-16 length and three times that, surrogate pairs and lone surrogates included |
| HttpGet.ByteLength | src/services/http-get-service/builtin-http-get-service.ts:249-267 | the count by code points is the length of the UTF-8 encoding |
| HttpGet.ReadCapped | src/services/http-get-service/builtin-http-get-service.ts:203-246 | a body is delivered, whole, iff neither its declared length nor its actual size exceeds the cap; the shortcuts on the UTF-16 length never change that |
| HttpGet.JoinsInOrder | src/services/http-get-service/builtin-http-get-service.ts:203-246 | the delivered text is the chunks' texts one after the other, in the order they came, and its size is the sum of theirs |
| HttpGet.Utf8StandsFor | src/services/http-get-service/builtin-http-get-service.ts:248-268 | the bytes counted are those of section 3 of RFC 3629: marked, no more than needed, and making up the code point |
| HttpGet.FollowBounded | src/services/http-get-service/builtin-http-get-service.ts:91-130 | against any server the loop ends within the redirect limit plus one extra fetch, requests only allowed URLs, and stops only on an allowed URL |
| HttpGet.FollowChained | src/services/http-get-service/builtin-http-get-service.ts:98-130 | each request after the first follows from the one before: its redirect resolves to it, or its redirect was hidden and the same URL is asked again |
| HttpGet.FollowJustified | src/services/http-get-service/builtin-http-get-service.ts:98-130 | the loop gives up only for cause: a URL the policy refuses, a request without an answer, a location that does not resolve, or exactly one redirect more than allowed |
| HttpGet.HttpGetService.Ask | src/services/http-get-service/builtin-http-get-service.ts:99-129 | one pass of the loop: its requests, what they lead to, and the flag that redirects are hidden |
| HttpGet.HttpGetService.FetchWithinPolicy | src/services/http-get-service/builtin-http-get-service.ts:91-142 | the loop and what follows it do exactly what the specification `Call` says, events, result and flag |
| HttpGet.HttpGetService.Conclude | src/services/http-get-service/builtin-http-get-service.ts:132-142 | the URL actually reached is judged before the body is read, and the body only under the cap |
| HttpGet.EndsExactly | src/services/http-get-service/builtin-http-get-service.ts:122-138 | a response is delivered iff the URL it came from is the one asked for or allowed, and it fits the cap as declared and as read; it is refused unread iff that URL is not allowed |
| HttpGet.CallKeepsPolicy | src/services/http-get-service/builtin-http-get-service.ts:91-142 | whatever the server answers: the bound on requests, every request allowed and with its reason, a body read only from an allowed URL, delivered only within the cap, and hidden redirects never forgotten |
| UrlVerdicts.CallStaysOutside | src/services/http-get-service/builtin-http-get-service.ts:31-47 | against any server, a call with the defaults requests and reads only https URLs whose host is no text of a refused address and no name of the local host |
| CryptoDispatch.AllProblemsMembers | src/crypto-dispatch.ts:170-188 | a set's problems are exactly its proofs' own |
| CryptoDispatch.FirstServiceDecides | src/crypto-dispatch.ts:79-123 | the first service that does not decline decides: its text, problems and `proofVerified` unchanged, or its throw; there is no service iff there is no document or every service declines |
| CryptoDispatch.FalsyExactly | src/crypto-dispatch.ts:60-90 | which values count as no document |
| ProofSets.DispatchedExactly | src/crypto-dispatch.ts:218-268 | a document with two or more proof objects is dispatched once for each, in order, as a copy with that proof alone, under its position in the array and its own name; any other document once, as it is |
| ProofSets.CombinedExactly | src/crypto-dispatch.ts:154-317 | the combined verdict: every failing proof's problems under that proof's name, in order; else the first throw, the first rejection whose proof verified, or the first verified proof; else no service, or the unchecked proofs' problems |
| CryptoDispatch.CombineProofOutcomes | src/crypto-dispatch.ts:272-317 | the loop that fills three lists computes the specification `Combine` |
| CryptoDispatch.GoodIffEveryCheckedProofIs | src/crypto-dispatch.ts:190-217 | the combined verdict is good iff at least one proof was checked and every checked one was good |
| CryptoDispatch.UnsupportedProofsDoNotCount | src/crypto-dispatch.ts:214-216 | beside a checked proof, adding, moving or deleting unsupported ones leaves the combined verdict the same, problems and all |
| CryptoDispatch.FailingProofsAreNamed | src/crypto-dispatch.ts:288-294 | a failing verdict carries exactly the failing proofs' problems, each under its proof's name |
| CryptoDispatch.WorstNewsDecides | src/crypto-dispatch.ts:295-305 | short of a failing proof, the first outcome of the worst kind there is becomes the document's verdict unchanged: a throw before a rejection of the document, that before a verified proof |
| CryptoDispatch.NothingChecked | src/crypto-dispatch.ts:306-316 | when no proof was checked the document fails, for want of a service iff no service took any proof, otherwise with every proof's problems |
| CryptoDispatch.OneOutcomePerProof | src/crypto-dispatch.ts:239-252 | a proof set is dispatched once per proof object, with one outcome each |
| CryptoDispatch.SetIsGoodIff | src/crypto-dispatch.ts:218-255 | the verdict read off the document's own proof array |
| CryptoDispatch.VerdictIgnoresOrder | src/crypto-dispatch.ts:218-317 | reordering a document's proof set never changes whether it verifies, for services that answer steadily |
| ProofSuite.ProofVerifications.BeginProofRun | src/suites/proof/proof-set-verification.ts:24-26 | a new run forgets what an earlier run on the context left, and only that |
| ProofSuite.ProofVerifications.VerifyProofSet | src/suites/proof/proof-set-verification.ts:35-55 | within a run a document is dispatched once and its verdict shared; outside a run every call dispatches |
| ProofSuite.ProofVerifications.SignatureCheck | src/suites/proof/signature-check.ts:84-147 | with nothing to verify the verdict comes without a dispatch; otherwise from one made in this run, whatever the memo held |
| ProofSuite.ProofVerifications.UnsupportedProofsCheck | src/suites/proof/unsupported-proofs-check.ts:39-57 | reads the verdict left by the signature check and dispatches only when there is none |
| ProofSuite.ProofVerifications.RunProofChecks | src/suites/proof/index.ts:27-34 | one run dispatches a document's proofs once for both checks, and both judge that dispatch |
| ProofSuite.SignatureSucceedsIff | src/suites/proof/signature-check.ts:116-146 | on a proof set `proof.signature` succeeds iff at least one proof was checked and every checked proof verified or was rejected for something other than the proof |
| ProofSets.SignatureExactly | src/suites/proof/signature-check.ts:87-146 | `proof.signature` on every subject: what it concludes when there is nothing to verify, and from each kind of combined verdict otherwise |
| ProofSets.WarningExactly | src/suites/proof/unsupported-proofs-check.ts:49-56 | the warning carries the unchecked proofs' problems, in order and each under its proof's name, and nothing else |
| ProofSuite.SilentIffEveryProofChecked | src/suites/proof/unsupported-proofs-check.ts:49-56 | the warning is silent iff every proof of the set was checked |
| ProofSuite.MentionsItsPosition | src/crypto-dispatch.ts:180-187 | a problem's prefix mentions its own proof's position and no other |
| ProofSuite.WarnsAtItsOwnPosition | src/suites/proof/unsupported-proofs-check.ts:49-56 | the warning mentions a position of the document's proof array iff there is a proof there that could not be checked |
| ProofSuite.WarningsPerProof | src/suites/proof/unsupported-proofs-check.ts:20-21 | a proof that could not be checked is reported with one problem if no service took it, and with as many as the service gave otherwise; any other proof with none |
| ProofSuite.TwoWarningsForOneProof | src/suites/proof/unsupported-proofs-check.ts:49-52 | a proof set and a service for which a proof is reported with two problems |
| StatusLists.SortStatusEntries | src/suites/status/bitstring-status-check.ts:104-143 | the checked entries counted, the other types and purposes and one located problem per malformed entry listed in order; every entry falls under exactly one of the four |
| StatusLists.CheckedStatusListUrls | src/suites/status/status-lists.ts:92-108 | the loop computes the specification list of URLs |
| StatusLists.CheckedUrlsExactly | src/suites/status/status-lists.ts:87-108 | a URL is listed iff some checked entry names it, and each once |
| StatusLists.NamesExactly | src/suites/status/status-lists.ts:23-108 | a URL is listed iff an entry of `credentialStatus` names it that is a Bitstring entry for revocation or suspension |
| StatusLists.CheckedUrlsInOrder | src/suites/status/status-lists.ts:87-108 | the URLs stand in the order in which the credential first names them |
| StatusLists.StatusStore.BeginStatusListRun | src/suites/status/status-lists.ts:128-130 | a new run starts with no record for the context |
| StatusLists.StatusStore.RecordVerifiedStatusList | src/suites/status/status-lists.ts:137-143 | a record is kept within a run and dropped outside one |
| StatusLists.StatusStore.TakeVerifiedStatusLists | src/suites/status/status-lists.ts:150-156 | the run's records are handed over and removed |
| StatusLists.StatusSuite.VerifyStatusList | src/suites/status/bitstring-status-check.ts:242-263 | the hook records a list iff its proofs are good, and says whether it verified |
| StatusLists.StatusSuite.CheckStatus | src/suites/status/bitstring-status-check.ts:418-430 | the library's run: every list it loads goes to the hook once, and what is on record afterwards is what the hook recorded |
| StatusLists.StatusSuite.BitstringStatusCheck | src/suites/status/bitstring-status-check.ts:380-466 | the verdict is the specification's, and a run is begun and filled exactly when the entries are well formed and one is checked |
| StatusLists.BitstringVerdictMeans | src/suites/status/bitstring-status-check.ts:342-371 | succeeds iff the entries are well formed, one is checked, every list was read and no bit is set; skipped iff no entry is malformed or checked |
| StatusLists.BitstringVerdictExactly | src/suites/status/bitstring-status-check.ts:321-466 | the same in terms of the credential's own entries: which are ill formed and which are checked; and each problem of a set bit tells its purpose, list and index |
| StatusLists.IllFormedExactly | src/suites/status/bitstring-status-check.ts:81-143 | a credential with ill-formed entries fails with one problem for each, in their order; its `instance`, read back as a pointer, leads to that entry, and to `type` or `statusPurpose` within it when that is at fault |
| StatusLists.EverySetBitIsReported | src/suites/status/bitstring-status-check.ts:436-452 | each set bit is reported once: a problem occurs as often as there are set bits of its purpose, list and index |
| StatusLists.StatusSuite.ListIssuerCheck | src/suites/status/list-issuer-check.ts:71-131 | the verdict over the records taken, and the store emptied only when some URL is checked |
| StatusLists.StatusSuite.RunSuite | src/suites/status/status-lists.ts:110-120 | both checks' verdicts; the list-issuer check judges exactly the lists this run recorded, even when the first check returned early; no record is left, and the context's empty map is iff it was there or was begun and no checked entry names a list |
| StatusLists.UnlistedLeavesAMap | src/suites/status/status-lists.ts:110-120 | a credential whose run begins and whose map stays: its checked entry names no list |
| StatusLists.StatusSuite.RunSuites | src/suites/status/status-lists.ts:110-120 | the same over any sequence of runs on one context, each starting where the one before ended |
| StatusLists.ListIssuerVerdictMeans | src/suites/status/list-issuer-check.ts:86-131 | fails iff some recorded checked list has a different or missing issuer; succeeds iff there is a checked list and all are recorded and match; skips as unchecked iff none is named |
| StatusLists.ListIssuerVerdictExactly | src/suites/status/list-issuer-check.ts:86-131 | the same in terms of the documents' own `issuer` members: fails iff some named and recorded list does not have the credential's issuer id, as a non-empty string or the non-empty `id` of an object; succeeds iff a list is named and all are recorded and have it |
| StatusLists.EveryMismatchIsReported | src/suites/status/list-issuer-check.ts:98-115 | exactly one problem for each mismatched list, and no other |
| JsonPointer.ParseFormat | src/util/json-pointer.ts:27-37 | reading a printed pointer by sections 3 and 4 of RFC 6901 gives back its segments' texts |
| JsonPointer.FormatFaithful | src/util/json-pointer.ts:27-37 | two pointers print alike iff their segments' texts are the same, hence for names iff they are equal |
| JsonPointer.AnIndexPrintsLikeAName | src/util/json-pointer.ts:27-37 | an index and a name of the same digits print alike |
| JsonPointer.IndexIsNumeral | src/util/json-pointer.ts:27-37 | a token is an array index by section 4 of RFC 6901 iff it is how some number prints |
| VcStructure.CheckCredentialSubject | src/suites/core/vc-structure-check.ts:93-119 | reports a missing or empty subject, and each entry that is empty, no object, or has a bad id |
| VcStructure.CheckTypedProperties | src/suites/core/vc-structure-check.ts:149-164 | reports every entry of the five typed properties by its own id rule |
| VcStructure.VcStructureCheck | src/suites/core/vc-structure-check.ts:62-90 | succeeds iff nothing is reported, and otherwise carries one problem per violation, located by its pointer |
| StructureReport.ReportSound | src/suites/core/vc-structure-check.ts:74-182 | every reported place is a value of the credential or a missing member of one of its objects, and no place is reported twice |
| StructureReport.InstancesResolve | src/suites/core/structure-helpers.ts:44-64 | the same of the printed `instance` texts, read back as RFC 6901 pointers |
| StructureReport.SilentIffConforms | src/suites/core/vc-structure-check.ts:31-54 | nothing is reported iff the credential conforms to a definition that mentions neither the rules' order nor their reports |
| VcRecognition.RecognitionTtl | src/services/registry-handlers/vc-recognition-handler.ts:74-80 | a recognition credential's lifetime is positive and an hour at most, and within what is left of its validity iff anything is left |
| VcRecognition.KeptWithinValidityIff | src/services/registry-handlers/vc-recognition-handler.ts:18-20 | a credential is kept no longer than it is valid iff an hour from the write is still within its validity, or it had not expired when its lifetime was worked out and the write took no time after that |
| VcRecognition.ExpiredIsKeptAnHour | src/services/registry-handlers/vc-recognition-handler.ts:74-80 | a credential that expires between verification and caching is kept an hour, and answers all that time |
| VcRecognition.RepliesAreVouchedFor | src/services/registry-handlers/vc-recognition-handler.ts:40-89 | in every run, a reply of found or not found rests on a credential that was fetched from the registry's URL, verified, and accepted by the registry that fetched it, then or earlier within its lifetime, and says whether one of that credential's subjects has the DID for its `id`; any other reply is unavailable, and it is so iff nothing live is cached and what was fetched is not accepted or does not verify |
| VcRecognition.SharedUrlSharesCredential | src/services/registry-handlers/vc-recognition-handler.ts:46-66 | the failing family: a registry answers from any credential that another one with its URL accepts and brought in, though its own list does not hold the issuer |
| VcRecognition.SecondRegistryFindsByTheFirst | src/util/registry-cache-key.ts:11-12 | two registries that differ only in accepted issuers both find the DID when asked in turn, though the second alone would be unavailable |
| VcRecognition.AcceptedIffAgreePerUrl | src/services/registry-handlers/vc-recognition-handler.ts:59-62 | in every run over a set of registries every answer rests on an issuer the answering registry accepts iff any two recognition registries of the set with equal URL accept the same issuers |
| Recognition.NestingVerifier.Verify | src/verifier.ts:129-190 | a call nests verifications at most two deep, one for itself and at most one per recognition registry, the inner ones with no registries; it terminates; and over registries that agree per URL every answer so far rests on an accepted issuer |
| Recognition.NestingVerifier.VerifyCredential | src/verifier.ts:153 | an empty registry list survives the default and makes the call the innermost one, which asks nothing and leaves the cache alone |
| Recognition.NestingVerifier.IssuerRegistryCheck | src/suites/registry/issuer-registry-check.ts:65-70 | with no registries, or no issuer, nothing is looked up, entered or written |
| Recognition.NestingVerifier.LookupIssuers | src/services/registry-lookup.ts:92-146 | a lookup enters at most one verification per recognition registry of its list, asks no other registry, and none at all on a remembered result |
| Recognition.NestingVerifier.LookupVcRecognition | src/services/registry-handlers/vc-recognition-handler.ts:40-89 | re-entering the verifier, the handler replies and leaves the cache exactly as its specification says for what it fetched, how it was judged and when; it verifies nothing unless nothing live was cached and what it fetched is by an accepted issuer |
| Recognition.AskExactly | src/services/registry-handlers/vc-recognition-handler.ts:51-80 | a fetched credential counts as verified iff an issuer that the registry lists issued it and the verification that follows the fetch finds it good |
| Recognition.VerificationsExactly | src/verifier.ts:129-190 | the verifications counted in the bounds above are the log's entries into one |
| Recognition.RecognitionCountExactly | src/types/registry.ts:40-56 | the registries counted in the bounds above are the list's recognition registries |

## Left out

- Phases.FilteredReport: the converse half is stated for checks that do not themselves return a skip with the runner's own not-run code.
- Phases.UnionOfPasses: likewise for its converse half.
- Oidf.UnexpiredNumericDate: numbers are reals, so the infinities and the rounding of doubles are not modelled.
- OidfLookup.Moment: how a registry's UTF-16 texts read as strings is a parameter.
- Oidf.LookupOidf: trimming of fetched bodies, and reading `max-age` out of a header, are parameters.
- IssuerLookup.LookupService.Lookup: a match counts as one object with its registry and entity records, which a copy copies together.
- CryptoDispatch.DispatchSet: concurrent dispatch of a set's proofs is numbered in array order; the options handed to a service are part of the service.
- HttpGet.ReadCapped: the incremental text decoder is a parameter, each chunk coming with its text.
- StatusLists.StatusSuite.CheckStatus: the status library is a parameter; it loads only lists that checked entries name, and classifies its own errors.
- StatusLists.ListIssuerVerdict: reason and message texts are short stand-ins here and in VcStructure.
- VcStructure.Violations: each violation carries its kind instead of the wording of its detail.
- Recognition.NestingVerifier.Verify: with the built-in handlers and suites only; suites added by the caller could call the verifier themselves. The DID-result cache is a parameter here, since RegistryLookup and IssuerLookup model it.
- Real fetches, timers, the deadline race and abort signals, and the parsing of URLs.
- Signature mathematics, JSON-LD canonicalisation, DID resolution and bitstring decoding.
- Human-readable titles, messages and details, except the prefix that names a proof's position.
- The envelope schemas, the Open Badges checks and schemas, recognizers, and the context, id, proof-exists and validity-period checks: single-pass filters.
- The `dcc-legacy` handler: one fetch and one membership test.
- Concurrent calls that share one context: the verifier builds one context per call.
