# Verified model of the gateway's stateful core

new-api is a gateway in front of large-language-model providers. This project models, in Dafny, the parts of it
that compute or keep state in non-obvious ways, and proves what they guarantee on every input, every run and every
interleaving. Code that updates state step by step is modelled by classes and loops, each tied to a specification
function; the theorems are about those functions.

- `ImageSpec`, over `Numbers` and `Text`: the translation of a resolution and an aspect ratio into a pixel size is an
  exact solver for the validator's constraints.
- `UpstreamSync`, `UpstreamTheorems`: detecting, applying and ignoring model changes of an upstream provider.
- `RateLimit`: the in-memory limiter refines the sliding-window rule.
- `OggScan`, over `Bytes`: the Ogg page scanner behind the Opus duration.
- `RatioDifferences`, `ModelsDev`, over `Pricing`: comparing price tables, and picking one price per model.
- `MultiKey`, `MultiKeyTheorems`: channels with many keys and index-keyed metadata.
- `BodyStorage`, `StorageAccounting`: request bodies in memory or on disk, and the usage counters.
- `ModelMapping`: model-name redirection chains.
- `StepUp`, `VerificationCodes`: the step-up verification session and the verification-code store.
- `WalletBilling`, `WalletTheorems`: wallet-funded billing sessions over a ledger with queued updates.

`dafny verify dfyconfig.toml` checks the whole project.

## What turned out not to hold

Each of these comes with a concrete input for every way it fails, and with the condition under which the code does
meet the property, for all inputs.

- A rate-limit window longer than the expiration plus one second is forgotten by eviction, and admissions can then
  crowd within it (`RateLimit.FollowsWindowIffExpirationLongEnough`, `RateLimit.AdmissionsAreSpreadIff`).
- A sync does not reach a fixed point when an added name holds a comma, or is itself a pattern in the ignore list that
  held other names back (`UpstreamTheorems.SyncReachesFixedPointIff`).
- The cheapest non-zero price can be missed by less than the epsilon (`ModelsDev.CheapestIsSelectedIff`,
  `ModelsDev.ClearlyCheapestIsSelected`); the comments
  at controller/ratio_sync.go:885 and 903-904 promise the cheapest.
- Deleting the auto-disabled keys when all keys are auto-disabled keeps and enables every key
  (`MultiKeyTheorems.DeleteDisabledTakesEffectIff`). A deletion shifts indices and statuses when a blank key is left
  at an end, or a survivor from a JSON array spans lines, and changes keys when what is left decodes as an array
  (`MultiKeyTheorems.DeletionRenumbersIff`).
- An upstream price that is an explicit null, or the string "same", can be dropped from the differences
  (`RatioDifferences.SurvivesIffSeen`).
- Memory and disk storage answer a read into an empty buffer at the end differently (`BodyStorage.SameRepliesIff`).
- Settling after a refund, or opening with a negative quota, charges something other than the bill
  (`WalletTheorems.SettledRequestPaysIff`). This is about the operations of a session in any order: the request
  handlers call `Refund` only in deferred functions that run after their last settlement
  (controller/relay.go:175-185, 521-527), so none of them settles after a refund.
- The disk budget can be exceeded by creations that pass its check together, and by a single one that stores more
  than the length it declared, as a decompressed body does (middleware/gzip.go:38-64, common/gin.go:66-69)
  (`StorageAccounting.BudgetIsKeptIff`).

## Model

| member | source | states |
|---|---|---|
| ImageSpec.PresetSucceedsIffSizeExists | common/openai_image_spec.go:78-138 | For every accepted ratio and resolution the translation succeeds if and only if some size string passes the validator, has exactly that aspect ratio and stays within the target edge (1024 for a square 1K): the arithmetic is an exact solver. |
| ImageSpec.PresetForWrittenTerms | common/openai_image_spec.go:102-138 | On written inputs, in the source's order of checks: an unknown resolution, a first term not from 1 to 1000, such a second term or a ratio beyond 3:1 are refused with their errors; otherwise success is equivalent to a valid size of that ratio within 1536, 2048 or 3840 (1K, 2K, 4K in either case, 1K if empty), or within 1024 for a square 1K. |
| ImageSpec.PresetRatioForms | common/openai_image_spec.go:107-118 | An empty ratio is 1:1, and text that is not two parts is refused. |
| ImageSpec.ValidatorOnWrittenEdges | common/openai_image_spec.go:94-97 | The validator accepts written edges exactly when they are multiples of 16 up to 3840, within 3:1, and hold 655360 to 8294400 pixels. |
| ImageSpec.ValidatorOnOtherText | common/openai_image_spec.go:78-93 | Nothing and "auto" pass; text that is not two parts, a width and then a height that is no number are refused with their errors. |
| ImageSpec.SuccessReturnsLargestValidSize | common/openai_image_spec.go:102-138 | On success the returned size has exactly the requested ratio, passes the validator, parses to the computed edges, and no valid size of that ratio within the edge is larger in either edge. |
| ImageSpec.ChosenSizeIsLargest | common/openai_image_spec.go:127-136 | The chosen edges dominate every pair of positive multiples of 16 with the same exact ratio within the edge and the 8294400 pixel cap, and are such a pair themselves unless they are 0. |
| ImageSpec.FitsOnlyMultiples | common/openai_image_spec.go:127-136 | Every such pair is a whole multiple, at most the step count, of 16 times the reduced ratio (Euclid's lemma on the coprime terms of the gcd loop). |
| ImageSpec.MultiplesFit | common/openai_image_spec.go:127-136 | Conversely every multiple from 1 to the step count is such a pair. |
| ImageSpec.StepsIsBound | common/openai_image_spec.go:135 | The step count, a minimum of a floor quotient and a floor square root, is the greatest s whose edges respect both the target edge and the pixel cap. |
| ImageSpec.SizeForSucceedsIff | common/openai_image_spec.go:127-138 | For every well-formed target the computed size is accepted if and only if some valid realisation exists. |
| ImageSpec.OpenAIImagePresetSize | common/openai_image_spec.go:102-138 | The source's method, with every rejection in its order and Euclid's loop, computes the specification that the theorems are about. |
| ImageSpec.SizeForTerms | common/openai_image_spec.go:127-137 | The in-place gcd loop, square edge override, step choice, printing and validation produce the reduced-ratio size. |
| ImageSpec.PrintedSizeParsesBack | common/openai_image_spec.go:82-97 | Printing two edges and giving the text to the validator's split and integer parse yields those edges, so the verdict is exactly the bounds check on them. |
| ImageSpec.ParsePrinted | common/openai_image_spec.go:102-126 | A ratio printed from two terms from 1 to 1000 is parsed back to those terms. |
| ImageSpec.ReducedSquare | common/openai_image_spec.go:127-134 | A ratio is square after the gcd reduction exactly when its written terms are equal. |
| ImageSpec.ScaledRatioSameSize | common/openai_image_spec.go:115-137 | Scaling both terms by the same factor, within 1000, gives the same answer, error or size. |
| ImageSpec.SwappedRatioTransposesSize | common/openai_image_spec.go:115-137 | Swapping the terms transposes the size and keeps the verdict. |
| ImageSpec.TransposedVerdict | common/openai_image_spec.go:78-98 | The validator judges a size and its transpose alike. |
| ImageSpec.AcceptedRatioCanFail | common/openai_image_spec.go:127-138 | A ratio that is accepted but has no size: 1000:999 at 4K ends as 0x0 and a bounds error. |
| UpstreamSync.NormalizedNormal | controller/channel_upstream_update.go:98-103 | Normalizing yields a list of distinct, trimmed, non-empty names. |
| UpstreamSync.NormalIsFixed | controller/channel_upstream_update.go:98-103 | Normalizing a normal list changes nothing. |
| UpstreamSync.NormalizedMembers | controller/channel_upstream_update.go:98-103 | The normalized list holds exactly the non-empty trimmings of the given names. |
| UpstreamSync.MergeModelNames | controller/channel_upstream_update.go:105-119 | The loop with its seen-set returns the ordered union: the base, then the appended names not in it. |
| UpstreamSync.SubtractModelNames | controller/channel_upstream_update.go:121-130 | The filter over the removal set returns the ordered difference. |
| UpstreamSync.IntersectModelNames | controller/channel_upstream_update.go:132-141 | The filter over the allowed set returns the ordered intersection. |
| UpstreamSync.ApplySelectedModelChanges | controller/channel_upstream_update.go:143-148 | For arbitrary lists: the normalized original and additions merged, without those normalized removals that are not also added. |
| UpstreamSync.RedirectSets | controller/channel_upstream_update.go:177-236 | The loop over the model mapping collects exactly the redirect sources and targets. |
| UpstreamSync.CollectPendingUpstreamModelChangesFromModels | controller/channel_upstream_update.go:177-236 | The detection as the source runs it computes the pending additions and removals. |
| UpstreamSync.PendingMeaning | controller/channel_upstream_update.go:177-236 | A name is a pending addition iff it is upstream, not local, not a redirect target and not ignored; a pending removal iff it is local, not upstream and not a redirect source; both lists are normal. |
| UpstreamSync.EntryMatchesMeans | controller/channel_upstream_update.go:211-225 | An ignore entry with the `regex:` prefix matches what its trimmed pattern matches, any other the one name it is. |
| UpstreamSync.LocalModelsAreCommaFree | model/channel.go:289-294 | A stored model list reads as a normal list without commas. |
| UpstreamSync.StoredListReadsBackIff | model/channel.go:289-294 | A normal list joined by commas reads back as itself if and only if no name holds a comma. |
| UpstreamSync.ChannelRow.ApplyChannelUpstreamModelUpdates | controller/channel_upstream_update.go:803-855 | The new models text, settings and reported lists of an application of arbitrary requests. |
| UpstreamSync.ChannelRow.CheckAndPersistChannelUpstreamModelUpdates | controller/channel_upstream_update.go:383-430 | The new channel state and result of one check: interval skip, failed fetch, detection, automatic application. |
| UpstreamTheorems.SyncReachesFixedPointIff | controller/channel_upstream_update.go:143-855 | One detect and apply-everything leaves nothing pending against the same upstream if and only if no detected addition holds a comma and striking the additions from the ignore list uncovers no name that only they, read as patterns, held back. |
| UpstreamTheorems.CommaNameStaysPending | controller/channel_upstream_update.go:143-855 | A sync that does not reach a fixed point: an upstream name with a comma is stored as two names and stays pending. |
| UpstreamTheorems.StruckPatternUncovers | controller/channel_upstream_update.go:143-855 | Another: a name that is itself a pattern of the ignore list is added and struck from it, and the name it held back becomes pending. |
| UpstreamTheorems.OrdinaryNamesReachFixedPoint | controller/channel_upstream_update.go:143-855 | In particular the fixed point is reached whenever no upstream name holds a comma or starts like a pattern. |
| UpstreamTheorems.RedirectSourcesAreKept | controller/channel_upstream_update.go:143-855 | A sync never removes a local redirect source, whatever the upstream lists. |
| UpstreamSync.CommaFreeNameIsStored | model/channel.go:289-294 | A name without a comma survives being joined, trimmed and split, whatever it is stored with. |
| UpstreamTheorems.PendingAddsArePartitioned | controller/channel_upstream_update.go:803-840 | Whatever is requested, every pending addition ends up in exactly one of accepted, ignored or still pending, and nothing else does; the ignored are in the ignore list, the accepted are not. |
| UpstreamTheorems.AcceptedEndsUpLocal | controller/channel_upstream_update.go:803-840 | Whatever is requested, an accepted name is out of the ignore list, and in the stored list if and only if it holds no comma, even if also requested as ignored or removed; only names pending removal leave the list; and if no accepted name holds a comma, removed names are gone and only pending additions are new. |
| UpstreamTheorems.AppliedKeepsName | controller/channel_upstream_update.go:803-855 | Every name of the new list that holds no comma is in the stored list. |
| UpstreamTheorems.NextModelsShape | controller/channel_upstream_update.go:143-148 | The new list is the old one in its order without the removed names, followed by the new names in theirs. |
| UpstreamTheorems.AppliedListReadsBackIff | controller/channel_upstream_update.go:803-855 | The list stored by an application reads back as intended if and only if no accepted name holds a comma. |
| UpstreamTheorems.ChoiceMeaning | controller/channel_upstream_update.go:803-840 | Membership in each list of an application in terms of the requests and the pending, local and ignored lists. |
| UpstreamTheorems.ChoiceStores | controller/channel_upstream_update.go:803-855 | What an application stores: a name stays pending addition exactly when it was and is in neither request, and pending removal exactly when it was and is not removed, in the old order; the time is stamped, the sync mode kept, and a change reported and stored exactly when the list changes. |
| UpstreamTheorems.CheckRecords | controller/channel_upstream_update.go:383-430 | What a check stores: nothing when too recent and not forced, only the time after a failed fetch, otherwise the pending lists and the time; only auto-sync touches the models. |
| UpstreamTheorems.AutoSyncAddsEverythingPending | controller/channel_upstream_update.go:383-430 | An automatic sync adds exactly the pending additions at the end and counts them; none stays pending if and only if none holds a comma. |
| UpstreamTheorems.CheckKeepsCoherenceIff | controller/channel_upstream_update.go:383-430 | A check keeps a channel coherent (pending additions are not local yet and can be stored, pending removals still are local and are no redirect source) if and only if it is skipped, applies the additions at once, or finds none with a comma. |
| UpstreamTheorems.ChoiceKeepsCoherence | controller/channel_upstream_update.go:803-855 | So does applying any choice. |
| UpstreamTheorems.RunsKeepCoherence | controller/channel_upstream_update.go:383-855 | Along every run of checks against changing comma-free upstreams and arbitrary choices a coherent channel stays coherent. |
| RateLimit.InMemoryRateLimiter.Request | common/rate-limit.go:45-70 | The new queues and the answer of one request, including a maximum of 0. |
| RateLimit.InMemoryRateLimiter.ClearExpiredItems | common/rate-limit.go:28-42 | One eviction pass deletes exactly the queues whose newest entry is older than the expiration. |
| RateLimit.SweepKeepsRecentKeys | common/rate-limit.go:28-42 | An eviction pass keeps a key exactly when its newest admission is at most the expiration old, with its queue. |
| RateLimit.LimiterFollowsWindow | common/rate-limit.go:28-70 | Over every run with a clock that does not go back, a request is admitted iff fewer than N requests of its key were admitted in the last D seconds (N at least 1), wherever eviction passes fall if D is at most the expiration plus one second, and without that bound if there are none; the queues represent the admission histories. |
| RateLimit.FollowsWindowIffExpirationLongEnough | common/rate-limit.go:14-70 | The limiter equals the sliding-window rule on all its runs if and only if no eviction loop was started (the duration is not positive) or no key's window exceeds the expiration plus one second. |
| RateLimit.TooLongWindowIsForgotten | common/rate-limit.go:28-42 | For every longer window, a concrete run with one eviction pass on which live admissions are forgotten and the answers differ. |
| RateLimit.SweepsAreInvisible | common/rate-limit.go:28-70 | If no window exceeds the expiration plus one second, dropping every eviction pass from a run changes no answer to a request. |
| RateLimit.WindowIgnoresSweeps | common/rate-limit.go:28-70 | The sliding-window rule itself does not depend on eviction passes. |
| RateLimit.AdmissionsAreSpread | common/rate-limit.go:28-70 | In every run any N+1 consecutive requests of a key that the limiter admits span at least D seconds, if no window exceeds the expiration plus one second or no eviction takes place. |
| RateLimit.AdmissionsAreSpreadIff | common/rate-limit.go:14-70 | The limiter's admissions are so spread in all runs if and only if no eviction loop was started or no window exceeds the expiration plus one second. |
| RateLimit.ForgottenBurstIsNotSpread | common/rate-limit.go:28-70 | For every longer window, a run in which N+1 admissions fall within the window. |
| RateLimit.RuleSpreadsAdmissions | common/rate-limit.go:45-70 | The sliding-window rule spreads its admissions. |
| RateLimit.RuleKeepsItsAdmissions | common/rate-limit.go:45-70 | The history the rule keeps is what its answers report. |
| RateLimit.RecentByNthLast | common/rate-limit.go:45-70 | In a sorted history fewer than n admissions are recent exactly when the n-th last is old: why looking at one entry of the queue suffices. |
| RateLimit.SameVerdict | common/rate-limit.go:45-70 | The limiter's test on its bounded queue is the rule's test on the whole history. |
| RateLimit.RequestServesOneQueue | common/rate-limit.go:45-70 | A request touches only its own key's queue and is answered from it. |
| RateLimit.RequestSimulates | common/rate-limit.go:45-70 | A request step keeps the queues representing the histories and answers by the rule. |
| RateLimit.SweepSimulates | common/rate-limit.go:28-42 | An eviction step keeps that representation when the windows are short enough. |
| RateLimit.BurstFillsWindow | common/rate-limit.go:45-70 | A burst of up to N requests at one instant is admitted in full and recorded. |
| OggScan.GetOpusDuration | common/audio.go:196-254 | The duration is the greatest granule position the scan finds, over 48000. |
| OggScan.LastGranulePosition | common/audio.go:207-249 | The seek-and-read loop ends on every input and returns the scan of the bytes. |
| OggScan.Turn | common/audio.go:207-249 | One turn ends the loop or moves the offset on, and preserves the maximum of the total and the scan of what is left. |
| OggScan.BodySize | common/audio.go:242-245 | The inner loop sums the segment table. |
| OggScan.ScanByReads | common/audio.go:207-249 | What the scan is at an offset, in terms of the header and table reads made there, short reads included. |
| OggScan.ScanOfChunks | common/audio.go:196-254 | On any stream of well-formed pages and bytes at which no page starts, followed by any tail, the scan is the maximum of 0, the pages' signed granule positions and the scan of the tail, whatever the page bodies contain. |
| OggScan.ScanOfPages | common/audio.go:196-254 | On any concatenation of well-formed pages the scan is the maximum of 0 and their granule positions. |
| OggScan.EveryInputDecomposes | common/audio.go:196-254 | Every byte string is such a stream with a tail the scanner cannot pass, and its scan is the maximum over exactly those pages and a page cut off by the end of the file. |
| OggScan.JunkPrefixIsSkipped | common/audio.go:219-226 | A prefix at whose offsets no page starts does not change the answer. |
| OggScan.MaxGranuleIsMaximum | common/audio.go:228-232 | The maximum is attained by a page or is 0, and no page exceeds it. |
| OggScan.EncodedPageAtFront | common/audio.go:219-248 | An encoded page (section 6 of RFC 3533) at the front is recognised, measured and its granule position read exactly. |
| OggScan.PageLayout | common/audio.go:219-248 | Byte by byte, what the pages of these theorems are: "OggS", version, flags, the granule position in two's complement with the least significant byte first, serial, number, checksum, segment count, segment sizes, body. |
| OggScan.SumOfParts | common/audio.go:242-245 | The body size is the sum of the segment sizes. |
| OggScan.DecodeEncode | common/audio.go:219-248 | Whatever the scanner skips as a page is the encoding of a well-formed page. |
| OggScan.LeValueOfBytes | common/audio.go:228-232 | Little-endian decoding of an encoded value gives the value back. |
| OggScan.LeBytesOfValue | common/audio.go:228-232 | And encoding a decoded value gives the bytes back. |
| RatioDifferences.SurvivesIffDiffers | controller/ratio_sync.go:536-696 | With distinct channel names and no value that is null or the string "same", a (model, field) item survives if and only if some channel's value differs from the local one or is supplied where none is local; it then lists exactly the channels that differ somewhere. |
| RatioDifferences.SurvivesIffSeen | controller/ratio_sync.go:536-696 | On all values: an item survives if and only if some channel differs in it and some channel whose difference is visible somewhere is not recorded as the same in it. |
| RatioDifferences.SurvivorListsShowingChannels | controller/ratio_sync.go:656-693 | On all values a surviving item lists exactly the channels with a visible difference somewhere, each with its own marker and confidence. |
| RatioDifferences.SurvivorRecords | controller/ratio_sync.go:605-629 | A survivor records for a listed channel its own value where the difference is visible, "same" where the values are equal or neither side has one, and null where only the local side has one or the channel lists null. |
| RatioDifferences.SurvivorListsOnlyChannels | controller/ratio_sync.go:656-693 | Nothing but channel names is listed. |
| RatioDifferences.HiddenValueIsLost | controller/ratio_sync.go:536-696 | Differences that are drafted and then lost: an upstream that lists an explicit null, or the string "same". |
| RatioDifferences.DraftedIffDiffers | controller/ratio_sync.go:593-654 | A cell enters the first draft exactly when some channel differs in it. |
| RatioDifferences.KeptIffShowsSomewhere | controller/ratio_sync.go:656-665 | The channels kept by the pruning are exactly those with a visible difference somewhere. |
| RatioDifferences.MarkerMeaning | controller/ratio_sync.go:605-629 | A recorded value is a value of its own exactly where the difference is visible; a difference is counted exactly where the channel differs, or where there is no local value and it shows one. |
| RatioDifferences.ValuesEqualMeans | controller/ratio_sync.go:55-62 | Two numbers are equal values exactly when they are less than a billionth apart, any other two exactly when they are the same. |
| RatioDifferences.NumbersDifferByEpsilon | controller/ratio_sync.go:55-62 | A listed number differs from a local one exactly when they are at least a billionth apart. |
| RatioDifferences.IntegersCompareAsNumbers | controller/ratio_sync.go:107-132 | An integer and a float of the same value differ in the two billing fields and in no other. |
| RatioDifferences.BuildDifferences | controller/ratio_sync.go:536-696 | The three stages over nested maps, in any visiting order, produce exactly the final items and no empty row. |
| RatioDifferences.CollectModels | controller/ratio_sync.go:542-556 | The models one table lists. |
| RatioDifferences.CollectAllModels | controller/ratio_sync.go:542-556 | The models any table lists. |
| RatioDifferences.ConfidenceRow | controller/ratio_sync.go:558-591 | A channel is not believed about a model exactly when it lists the placeholder pair 37.5 and 1. |
| RatioDifferences.ConfidenceTable | controller/ratio_sync.go:558-591 | The confidence of every channel in every model. |
| RatioDifferences.NotConfidentMeans | controller/ratio_sync.go:558-591 | A channel is not believed about a model exactly when it lists 37.5 and 1, each to less than a billionth. |
| Pricing.NearlyEqualMeans | controller/ratio_sync.go:48-53 | Two prices are nearly equal exactly when they are less than a billionth apart. |
| RatioDifferences.Observe | controller/ratio_sync.go:605-629 | The value recorded for one channel in a cell and whether it counts as a difference. |
| RatioDifferences.DraftCell | controller/ratio_sync.go:593-654 | One cell: the fold over the channels and the decision to keep it. |
| RatioDifferences.DraftAll | controller/ratio_sync.go:593-654 | The first stage over every model and field. |
| RatioDifferences.ChannelsWithDifference | controller/ratio_sync.go:656-665 | The second stage collects the names that show a value of their own. |
| RatioDifferences.PruneItem | controller/ratio_sync.go:667-693 | The third stage on one item: delete in place, then test for anything but "same". |
| RatioDifferences.Prune | controller/ratio_sync.go:667-693 | The third stage over the nested maps leaves no empty row. |
| ModelsDev.SelectCandidates | controller/ratio_sync.go:911-948 | The selection loop over sorted providers returns, for each model, the fold of its offers, and an error exactly for an empty response or no usable entry. |
| ModelsDev.SelectFromProvider | controller/ratio_sync.go:922-944 | One provider's models are folded in, in any order. |
| ModelsDev.CandidateIffConvertible | controller/ratio_sync.go:845-879 | A listing makes a candidate exactly when it has a non-negative input price and, if it has an output price, a non-negative completion ratio gives it; the candidate carries those prices. |
| ModelsDev.SelectedIsNearlyCheapest | controller/ratio_sync.go:881-944 | If any offer is non-zero, the selected price is non-zero and below every non-zero offer plus the epsilon, although the comparison is not transitive. |
| ModelsDev.CheapestIsSelectedIff | controller/ratio_sync.go:881-944 | The documented cheapest non-zero price is selected if and only if, when its first provider is reached, the price held so far is absent, zero, or higher by at least the epsilon. |
| ModelsDev.ClearlyCheapestIsSelected | controller/ratio_sync.go:881-944 | If no earlier provider's non-zero price is above the cheapest by less than the epsilon, the cheapest is selected. |
| ModelsDev.CheapestCanBeMissed | controller/ratio_sync.go:881-944 | A two-provider catalog on which it is not. |
| ModelsDev.AllZeroSelectsFirst | controller/ratio_sync.go:881-944 | If every offer is zero the alphabetically first provider is selected. |
| ModelsDev.SelectedIsOffered | controller/ratio_sync.go:906-944 | The selected candidate is one of the offers, and there is one whenever there is an offer. |
| ModelsDev.ReplacesOnlyToImprove | controller/ratio_sync.go:881-893 | Over sorted providers a candidate is replaced only by a non-zero one that follows a zero one or undercuts by at least the epsilon. |
| ModelsDev.BeforeIsTotal | controller/ratio_sync.go:915-919 | The order the providers are sorted by is total. |
| MultiKey.LinesReadBackIff | model/channel.go:175-197 | Keys stored one per line read back if and only if no key holds a newline and neither end is blank. |
| MultiKey.PlainKeysReadBack | model/channel.go:175-197 | Non-blank one-line keys that do not open an array read back and are counted right. |
| MultiKey.CountIsNumberOfKeysIff | model/channel.go:550-582 | The stored key count is the number of keys if and only if the text does not decode to an empty array. |
| MultiKey.DropFrom | model/channel.go:583-590 | The loop that drops statuses past the last key keeps exactly the others. |
| MultiKey.MultiKeyChannel.Update | model/channel.go:550-601 | What saving a row stores: an empty key text leaves the old one, the size is recounted, statuses past it are dropped. |
| MultiKey.MultiKeyChannel.DisableKeyAction | controller/channel.go:1439-1480 | The new row and outcome of disabling one key, missing and out-of-range indices included. |
| MultiKey.MultiKeyChannel.EnableKeyAction | controller/channel.go:1482-1522 | The new row and outcome of enabling one key. |
| MultiKey.MultiKeyChannel.EnableAllKeys | controller/channel.go:1524-1546 | The new row and outcome of enabling all keys. |
| MultiKey.TurnOff | controller/channel.go:1548-1593 | The loop that turns off the enabled keys touches no other status and counts them. |
| MultiKey.MultiKeyChannel.DisableAllKeys | controller/channel.go:1548-1593 | The new row and outcome of disabling all keys. |
| MultiKey.MultiKeyChannel.RebuildWithout | controller/channel.go:1613-1660 | The rebuilding loop with its running new index builds the survivors and their renumbered metadata. |
| MultiKey.MultiKeyChannel.DeleteKeyAction | controller/channel.go:1595-1673 | The new row and outcome of deleting one key; the last key is refused. |
| MultiKey.MultiKeyChannel.DeleteDisabledKeysAction | controller/channel.go:1675-1742 | The new row and outcome of deleting the auto-disabled keys. |
| MultiKey.MultiKeyChannel.ReportKeyAction | model/channel.go:669-776 | What an automatic status report does to the row; an unknown key counts as the first. |
| MultiKey.FindKey | model/channel.go:669-705 | The search finds the first occurrence of the reported key, or index 0. |
| MultiKey.PollNextKey | model/channel.go:199-281 | Polling selects the first enabled key from the polling index on, wrapping around, and moves the index past it; it fails exactly when no key is enabled. |
| MultiKey.NextEnabledMeans | model/channel.go:199-281 | The selected key has status 1 and no key from the polling index up to it, going round, has. |
| MultiKey.CompactCarriesOver | controller/channel.go:1613-1660 | Each survivor's key, status, and kept time and reason are found at its rank, and nothing is out of range. |
| MultiKey.RankMonotone | controller/channel.go:1613-1660 | Survivors keep their order. |
| MultiKey.EveryNewIndexIsARank | controller/channel.go:1613-1660 | Every new index is the rank of a survivor, so no metadata of a deleted key remains. |
| MultiKeyTheorems.DeletionRenumbersIff | controller/channel.go:1613-1728 | For every row, key text (lines or a JSON array) and plan: a deletion that removes some keys and leaves some is an order-preserving compaction of the row as read back, each survivor at its rank with its status, and with its time and reason if disabled, if and only if the survivors' joined text does not decode as an array, no survivor holds a newline and neither end is blank. |
| MultiKeyTheorems.DeletionRenumbers | controller/channel.go:1613-1728 | The if direction with no condition on array decoding: such survivors read back as themselves, renumbered and counted right. |
| MultiKeyTheorems.PlainSurvivorsAreStorable | controller/channel.go:1613-1728 | The survivors of a well-formed row meet that condition. |
| MultiKeyTheorems.JoinedNeverDecodesToItself | model/channel.go:183-193 | Survivors whose joined text decodes as an array never read back, because an array text is longer than its elements. |
| MultiKeyTheorems.ArrayKeySpansLines | controller/channel.go:1595-1673 | A row on which the condition fails: an array element that spans lines is split, and the status of the disabled last key moves to one of its lines. |
| MultiKeyTheorems.ArrayTextIsDecoded | controller/channel.go:1595-1673 | Another: a key that is an array text of its own is left alone, decodes, and reads back as its element. |
| MultiKeyTheorems.BlankKeyShiftsIndices | controller/channel.go:1595-1673 | A row on which a deletion gives a key the status of another one. |
| MultiKeyTheorems.ActKeepsWellFormed | controller/channel.go:1439-1742 | Every action keeps the size equal to the number of keys, the metadata within it and the statuses valid. |
| MultiKeyTheorems.RunsKeepWellFormed | controller/channel.go:1439-1742 | So does every sequence of actions and status reports; effective statuses stay in 1, 2, 3. |
| MultiKeyTheorems.DisableKeyDisablesIt | controller/channel.go:1439-1480 | The key gets status 2 and nothing else changes; a missing or wrong index is refused. |
| MultiKeyTheorems.EnableKeyEnablesIt | controller/channel.go:1482-1522 | The key gets status 1, its time and reason are dropped, and nothing else changes. |
| MultiKeyTheorems.EnableAllEnablesEveryKey | controller/channel.go:1524-1546 | Every key gets status 1, all times and reasons are dropped, and the disabled are counted. |
| MultiKeyTheorems.DeleteKeyOutcomes | controller/channel.go:1595-1673 | A missing index, one out of range and the last key are refused, each with its error; otherwise the others are stored. |
| MultiKeyTheorems.NoneAutoDisabledNothingToDo | controller/channel.go:1675-1742 | A row without auto-disabled keys is left alone. |
| MultiKeyTheorems.DisableAllOfNothing | controller/channel.go:1548-1593 | A row without keys is left alone. |
| MultiKeyTheorems.ReportMarksTheKey | model/channel.go:669-776 | A report gives its status to the first key equal to the reported one, with time and reason if it disables it, and changes no other key's status, time or reason; a channel already in that status is left alone. |
| MultiKeyTheorems.ReportWithoutKeys | model/channel.go:669-676 | A channel without keys takes the status itself. |
| MultiKeyTheorems.DisableAllLeavesNoneEnabled | controller/channel.go:1548-1593 | Every enabled key gets status 2, the disabled ones and everything else stay, and the number of enabled keys is reported. |
| MultiKeyTheorems.DeleteDisabledLeavesNoneAutoDisabled | controller/channel.go:1675-1742 | Afterwards no key is auto-disabled. |
| MultiKeyTheorems.DeleteDisabledTakesEffectIff | controller/channel.go:1675-1742 | For every row with some key auto-disabled the deletion reports success, and renumbers the others faithfully if and only if there are others and they can be stored one per line; with no others every key stays and all metadata is dropped, which enables them. |
| MultiKeyTheorems.PlainDeleteDisabledTakesEffectIff | controller/channel.go:1675-1742 | In a well-formed row the auto-disabled keys are really removed if and only if another key is left. |
| MultiKeyTheorems.LoneDisabledKeyIsEnabled | controller/channel.go:1675-1742 | Such a row: a lone auto-disabled key is reported deleted, stays and is enabled. |
| MultiKeyTheorems.EmptyDeletionReenables | controller/channel.go:1675-1742 | A deletion that keeps no key stores the old keys without metadata. |
| MultiKeyTheorems.ChannelGoesDownIffNoKeyEnabled | model/channel.go:669-776 | A report takes the channel down exactly when it leaves no key enabled. |
| MultiKeyTheorems.PollingIsFair | model/channel.go:199-281 | Polling never passes an enabled key more often than there are keys ahead of it, and repeats no key before reaching it. |
| BodyStorage.Usage.IncrementDiskFiles | common/disk_cache_config.go:109-113 | Count and bytes go up by one storage. |
| BodyStorage.Usage.DecrementDiskFiles | common/disk_cache_config.go:115-123 | Count and bytes go down by one storage, clamped at zero. |
| BodyStorage.Usage.IncrementMemoryBuffers | common/disk_cache_config.go:125-129 | Count and bytes go up by one buffer. |
| BodyStorage.Usage.DecrementMemoryBuffers | common/disk_cache_config.go:131-134 | Count and bytes go down by one buffer. |
| BodyStorage.MemoryStorage.constructor | common/body_storage.go:37-45 | An open storage at position 0, counted. |
| BodyStorage.MemoryStorage.DoRead | common/body_storage.go:47-54 | Reply and new cursor of a read. |
| BodyStorage.MemoryStorage.DoSeek | common/body_storage.go:56-63 | Reply and new cursor of a seek. |
| BodyStorage.MemoryStorage.DoBytes | common/body_storage.go:74-81 | The whole content, with nothing changed. |
| BodyStorage.MemoryStorage.DoClose | common/body_storage.go:65-72 | The first Close uncounts the storage, further ones do nothing. |
| BodyStorage.DiskStorage.constructor | common/body_storage.go:100-130 | An open storage at position 0, counted. |
| BodyStorage.DiskStorage.DoRead | common/body_storage.go:169-176 | Reply and new cursor of a read. |
| BodyStorage.DiskStorage.DoSeek | common/body_storage.go:178-185 | Reply and new cursor of a seek. |
| BodyStorage.DiskStorage.DoBytes | common/body_storage.go:198-230 | Saving the position, rewinding, reading fully and restoring returns the whole content with the cursor where it was. |
| BodyStorage.DiskStorage.DoClose | common/body_storage.go:187-196 | The first Close uncounts the storage, clamped at zero; further ones do nothing. |
| BodyStorage.SameStates | common/body_storage.go:47-238 | Over every sequence of Read, Seek, Bytes and Close both storages go through the same states. |
| BodyStorage.SameRepliesIff | common/body_storage.go:47-238 | They give the same replies if and only if the sequence never reads into an empty buffer at the end of the open storage. |
| BodyStorage.EmptyReadDiffers | common/body_storage.go:47-54 | A sequence on which they differ: one empty read of an empty body. |
| BodyStorage.BytesLeavesCursor | common/body_storage.go:74-81 | Fetching the content leaves the cursor where it was and yields the same bytes on both. |
| BodyStorage.RewindAndReadAll | common/body_storage.go:169-185 | After a rewind one full read delivers the content. |
| BodyStorage.ReadsDeliverInOrder | common/body_storage.go:47-54 | Successive reads of any sizes deliver the content from the cursor on without gap or repetition, and all of the rest once they ask for enough, on both kinds. |
| BodyStorage.ReadDelivers | common/body_storage.go:169-176 | A read delivers the bytes from the cursor on, as many as fit or are left, and moves the cursor past them, on both kinds. |
| BodyStorage.ReadAtEnd | common/body_storage.go:169-176 | At the end there is nothing to read and the cursor stays. |
| BodyStorage.SeekGoesTo | common/body_storage.go:178-185 | A seek goes to the offset from the start, the cursor or the end, and refuses to go before the start, on both kinds. |
| BodyStorage.ClosedAnswersNothing | common/body_storage.go:65-81 | A closed storage answers nothing but further Closes. |
| BodyStorage.CreateBodyStorage | common/body_storage.go:241-259 | The storage holds exactly the body; it is on disk exactly when the cache is enabled, the body reaches the threshold and fits the budget, and the file can be written. |
| BodyStorage.NewBodyStorage | common/body_storage.go:241-259 | Builds a new open storage object of that kind with that content and counts it once, choosing on the disk bytes counted so far. |
| BodyStorage.NewBodyStorageFromReader | common/body_storage.go:262-303 | Builds and counts exactly one storage object for an accepted stream, with its bytes; a refused or failed one counts nothing. |
| BodyStorage.CreateBodyStorageFromReader | common/body_storage.go:262-303 | A stream goes straight to disk exactly when the cache is enabled and its declared length reaches the threshold and fits the budget; it fails exactly when it then cannot be written, is refused exactly when it is longer than `maxBytes`, and is otherwise stored with exactly its bytes, on disk or in memory. |
| StorageAccounting.EveryRunIsAccounted | common/disk_cache_config.go:109-134 | Under every interleaving of the atomic steps of creations and repeated Closes the counters are the totals contributed so far and no clamp fires. |
| StorageAccounting.QuietCountersAreExact | common/body_storage.go:37-196 | Whenever no call is in progress the counters equal the number and summed sizes of the open memory and disk storages. |
| StorageAccounting.MoveKeepsAccounts | common/disk_cache_config.go:109-134 | Every atomic step keeps the accounts. |
| StorageAccounting.DriftIsBounded | common/disk_cache_config.go:109-134 | At every moment of every run the counters exceed the number and sizes of the open storages by at most those of the storages with a call in progress. |
| StorageAccounting.StorageLivesOnce | common/body_storage.go:37-196 | In every run each storage goes through its phases once, one a step, and stays closed, whatever the others do. |
| StorageAccounting.BudgetIsKeptIff | common/disk_cache_config.go:169-177 | The disk bytes stay within the budget at every moment of a run, however the calls in progress might go on, if and only if every creation that passes the check fits into the budget beside what is stored and what is in flight. |
| StorageAccounting.CreationKeepsBudgetIff | common/disk_cache_config.go:169-177 | After any run, a creation that passes the check keeps the disk bytes within the budget under every continuation of the calls in progress if and only if the bytes stored, the sizes in flight and the size it really stores fit together. |
| StorageAccounting.SafeIffFits | common/disk_cache_config.go:109-134 | However the calls in progress go on, the disk bytes stay within the budget if and only if what is stored and what is in flight fit into it together. |
| StorageAccounting.DiskBytesWithinBudget | common/disk_cache_config.go:169-177 | A bound when they do not fit: at every moment of every run the disk bytes exceed the budget by at most what was in flight, or stored beyond its declared size, when some creation passed the check; none if creations pass one at a time and store no more than they declare. |
| StorageAccounting.MoveKeepsBudget | common/disk_cache_config.go:169-177 | Every atomic step, checked creations included, keeps that bound. |
| StorageAccounting.BudgetCanBeExceeded | common/disk_cache_config.go:169-177 | One way to exceed the budget, by as much as the bound allows: two creations that each fill it both pass the check and both are stored. |
| StorageAccounting.UndeclaredSizeExceedsBudget | common/body_storage.go:262-303 | The other way: one creation alone that stores more than the length it declared. |
| ModelMapping.ResolveModelMapping | common/model_mapping.go:10-31 | The loop ends on every map; it reports a cycle iff following trimmed targets never reaches a name with an empty or self target, and otherwise returns that name, `mapped` exactly when a hop was taken; blank and undecodable mappings included. |
| ModelMapping.TerminalIsFinal | common/model_mapping.go:10-31 | Past a terminal name the chain does not move. |
| ModelMapping.TerminalIsUnique | common/model_mapping.go:10-31 | A chain has at most one terminal name. |
| ModelMapping.CycleHasNoTerminal | common/model_mapping.go:10-31 | From a set of redirected names closed under redirection no terminal name is reached. |
| ModelMapping.ChainAgrees | common/model_mapping.go:10-31 | All names on one chain resolve to the same name, or all report a cycle. |
| ModelMapping.ResolutionIsIdempotent | common/model_mapping.go:10-31 | Resolving a result changes nothing. |
| ModelMapping.ResolutionStep | common/model_mapping.go:10-31 | A name with no target, or whose trimmed target is empty or itself, is final; any other is mapped to what its trimmed target resolves to, or reports its cycle. |
| ModelMapping.MutualRedirectsAreACycle | common/model_mapping.go:10-31 | Two names that redirect to each other report a cycle. |
| StepUp.SecureSession.PasskeyVerifyFinish | controller/passkey.go:490-498 | A ceremony sets its marker and clears any grant. |
| StepUp.SecureSession.SetSecureVerificationSession | controller/secure_verification.go:145-155 | A grant records method and time and clears the marker. |
| StepUp.SecureSession.ConsumePasskeyReady | controller/secure_verification.go:157-179 | The marker is always deleted; it counts if under 60 seconds old. |
| StepUp.SecureSession.UniversalVerifyTwoFactor | controller/secure_verification.go:85-143 | The new session and outcome of the 2FA branch. |
| StepUp.SecureSession.UniversalVerifyPasskey | controller/secure_verification.go:85-143 | The new session and outcome of the passkey branch with its two clock readings. |
| StepUp.SecureSession.RequireSecureVerificationMethod | controller/passkey.go:564-581 | The new session and verdict of the method check. |
| StepUp.SecureSession.SecureVerificationRequired | middleware/secure_verification.go:22-84 | The new session and verdict of the middleware check. |
| StepUp.CheckPassesIffStandingGrant | controller/passkey.go:564-581 | After every run the check for a method passes if and only if a verification by that method succeeded under 300 seconds ago and no ceremony, logout or other verification came after it. |
| StepUp.GuardPassesIffStandingGrant | middleware/secure_verification.go:22-84 | After every run the middleware's check passes if and only if a verification by either method succeeded under 300 seconds ago and nothing superseded it. |
| StepUp.TwoFactorVerifiesIffAccepted | controller/secure_verification.go:85-143 | A 2FA verification succeeds exactly when its code is accepted, and then records its grant; otherwise the session is left alone. |
| StepUp.SessionRecordsGrant | controller/secure_verification.go:85-179 | After every run the session records exactly the standing grant, if it has not expired. |
| StepUp.MarkerIsStandingCeremony | controller/secure_verification.go:157-179 | The marker is set exactly when a ceremony stands that nothing has consumed or replaced. |
| StepUp.PasskeyVerifiesIffStandingCeremony | controller/secure_verification.go:85-143 | A passkey verification succeeds if and only if the user has a passkey and such a ceremony finished under 60 seconds before. |
| StepUp.EachVerificationHasItsOwnCeremony | controller/secure_verification.go:85-179 | Between two successful passkey verifications lies a ceremony: none is counted twice. |
| VerificationCodes.VerificationMap.RegisterVerificationCodeWithKey | common/verification.go:35-45 | The new store, including the sweep once more than ten codes are held. |
| VerificationCodes.VerificationMap.VerifyCodeWithKey | common/verification.go:47-56 | Whether the stored code matches and is younger than ten minutes. |
| VerificationCodes.VerificationMap.DeleteKey | common/verification.go:58-62 | The entry is gone, the others stay. |
| VerificationCodes.VerificationMap.RemoveExpiredPairs | common/verification.go:65-72 | The loop removes exactly the expired entries. |
| VerificationCodes.VerifiesIffStanding | common/verification.go:35-72 | After every run a code verifies if and only if the latest register-or-delete event for its purpose and key registered that code under ten minutes ago; eviction never matters. |
| VerificationCodes.StandingIsLatest | common/verification.go:35-62 | The reference notion read out: some event registers the entry and no later one registers or deletes the same purpose and key. |
| VerificationCodes.StoreAgrees | common/verification.go:35-72 | After every run the store agrees with the standing registration of every purpose and key, up to expired entries. |
| VerificationCodes.StorageKeysDoNotCollide | common/verification.go:35-62 | Purposes of equal length, as the two one-letter purposes are, never make two keys collide. |
| VerificationCodes.RegistrationEvictsExpired | common/verification.go:35-45 | A registration stores its code, and drops another entry exactly when more than ten are then held and it is ten minutes old. |
| WalletTheorems.QuotaIsConserved | model/quota_reservation.go:11-93 | In every run, however sessions, queued updates, batch passes and delayed refunds interleave and whatever the database refuses, wallet plus queue plus the charges of all sessions is the start plus what was queued; likewise for the token, whose remaining and used quota keep their sum. |
| WalletTheorems.WalletPaysTheBills | service/billing_session.go:39-225 | In every run that opens no session on a negative quota and settles none already refunded, once every session is concluded the wallet has paid exactly the bills. |
| WalletTheorems.SettledRequestPaysIff | service/billing_session.go:39-157 | In every run, what a settled session has taken from the ledger, once no refund is outstanding, is the actual amount plus what a negative opening quota adds, minus the reserved amount if the settling call found it refunded and the database did not refuse that refund; so with an ordinary quota it is exactly the actual amount if and only if the settling call found it not refunded or the refund was refused. |
| WalletTheorems.RefundedRequestPaysIff | service/billing_session.go:98-157 | A refunded session that is never settled has taken nothing if and only if the database did not refuse its refund, and otherwise what it reserved. |
| WalletTheorems.PaidIsCharge | service/billing_session.go:39-291 | What a session has taken, added up from the ledger move by move, is its reserved amount plus its settlement minus its refund. |
| WalletTheorems.SettlementStands | service/billing_session.go:42-68 | A settlement that went through is never changed by any later move, nor is what it found. |
| WalletTheorems.RefundLostIffRefused | service/billing_session.go:98-157 | A refund comes to nothing exactly when the database refuses its job. |
| WalletTheorems.SettlingAfterRefundUndercharges | service/billing_session.go:42-68 | A run that settles after a refund and leaves the wallet better off than before the request. |
| WalletTheorems.NegativeQuotaOvercharges | service/billing_session.go:233-291 | A run that opens on a quota of -5 and is charged 13 for a bill of 8. |
| WalletTheorems.ReservingRunsStaySolvent | model/quota_reservation.go:14-35 | Without settlements and queued debits neither the wallet nor a limited token goes below zero in any run. |
| WalletTheorems.ReservationNeverOverdraws | model/quota_reservation.go:14-35 | A reservation the database takes is accepted exactly when wallet and limited token, queued updates included, hold enough; an accepted one leaves both at zero or above and a refused one changes nothing. |
| WalletTheorems.SettlementCanOverdraw | service/billing_session.go:42-68 | A run in which a settlement takes wallet and token below zero. |
| WalletTheorems.ReserveRaisesToTarget | service/billing_session.go:186-225 | Raising an open, untrusted session's reservation reserves exactly the target if wallet and limited token hold the difference, and is otherwise refused without effect and with its reason; at or below it, or after the session has ended, nothing happens. |
| WalletTheorems.OpeningReservesQuota | service/billing_session.go:233-291 | Opening reserves exactly the quota under the same condition, and nothing for a trusted session. |
| WalletTheorems.SettlementTakesDifference | service/billing_session.go:42-68 | A settlement takes the difference between the actual amount and what was reserved and records the bill, unless the database refuses; a settled session is left alone. |
| WalletTheorems.RefundGivesBackReserved | service/billing_session.go:98-157 | A refund hands over a job for all that an open session has reserved, and the job gives it back unless the database refuses. |
| WalletTheorems.TransactionStoresQueues | model/quota_reservation.go:54-93 | A charge or refund that goes through stores the queued updates it was checked against, the token's only if the token takes part. |
| WalletTheorems.AdjustmentTakesDelta | model/quota_reservation.go:39-52 | An adjustment takes its amount and is refused only by the database, and only if there is something to adjust. |
| WalletTheorems.RefusalNamesItsReason | model/quota_reservation.go:14-35 | A reservation is refused for a negative amount, by the database, for the wallet or for the token, in this order. |
| WalletTheorems.BatchPassInRun | model/utils.go:90-125 | In every run a batch pass the database accepts leaves nothing queued and stores what the user and the token really have; one it refuses changes nothing. |
| WalletTheorems.SessionsAreConsistent | service/billing_session.go:26-291 | In every run every session's amounts and flags agree: reserved user and token amounts are equal, a refund job is for exactly the reserved amount, nothing is returned twice. |
| WalletTheorems.SessionMoveTakesCharge | service/billing_session.go:42-225 | Each session step takes from wallet and token exactly the change of the session's charge. |
| WalletTheorems.MoveKeepsBooks | model/utils.go:57-127 | Each step of sessions, queues and batch passes keeps the books of user and token. |
| WalletBilling.QuotaLedger.AddUserRecord | model/utils.go:49-70 | Queues a user update. |
| WalletBilling.QuotaLedger.AddTokenRecord | model/utils.go:49-70 | Queues a token update. |
| WalletBilling.QuotaLedger.BatchUpdateUser | model/utils.go:90-125 | The queued user update is stored, or queued again if that fails. |
| WalletBilling.QuotaLedger.BatchUpdateToken | model/utils.go:90-125 | The queued token update is stored, or queued again if that fails. |
| WalletBilling.QuotaLedger.ReserveWalletQuota | model/quota_reservation.go:14-93 | The ledger and verdict of a conditional charge, rolled back in full when refused. |
| WalletBilling.QuotaLedger.AdjustWalletQuota | model/quota_reservation.go:39-93 | The ledger and verdict of an unconditional charge or refund. |
| WalletBilling.QuotaLedger.Commit | model/quota_reservation.go:74-92 | A commit stores the new quotas and drops the queued updates that were applied. |
| WalletBilling.BillingSession.PreConsume | service/billing_session.go:233-291 | The wallet branch: a trusted session reserves nothing, a refused reservation opens none. |
| WalletBilling.BillingSession.Reserve | service/billing_session.go:186-225 | The ledger, session and verdict of raising the reservation. |
| WalletBilling.BillingSession.Settle | service/billing_session.go:42-68 | The ledger, session and verdict of a settlement, retryable after a database error. |
| WalletBilling.BillingSession.Refund | service/billing_session.go:99-128 | A refund is marked and handed over once. |
| WalletBilling.BillingSession.RunRefundJob | service/billing_session.go:128-140 | The job gives back the reserved amount or, on a database error, nothing. |

## Left out

- HTTP handlers, JSON binding, cookies, OAuth, WebAuthn, mail, Redis and the database itself: plumbing over libraries.
- Relay adaptors, channel selection, static model tables and price conversion: finite lookups and format mapping.
- Subscription-funded sessions, and falling back between wallet and subscription: only the wallet branch is modelled.
- The wallet's early rejection on cached quota and the trust decision (service/billing_session.go:366-398, 431-447):
  whether a session is trusted is an input, and a session rejected early never opens.
- Soft-deleted users and vanished rows: such a transaction is one the database refuses.
- WalletBilling.BillingSession.RunRefundJob: a refund job that fails is lost, as in the source; the program's log line is not modelled.
- WalletBilling.QuotaLedger.BatchUpdateUser: one user and one token are modelled, not the loop over all entries.
- Clocks: readings are inputs that do not go back.
- Floating point: ratios, prices and durations are reals; the square root of the step count is the exact floor square root.
- Integer width: 64-bit overflow is modelled where text is parsed and where granule positions are signed, not in counters, quotas and cursors.
- Text: strings are sequences of code points; invalid UTF-8 is not modelled.
- Regular expressions of the ignore list, and decoding a key text that opens a JSON array: function parameters.
- MultiKeyTheorems.DeletionRenumbersIff: takes from JSON only that an array text is at least as long as its elements, a comma between any two and two brackets.
- Sorting of provider names: the sorted list is an input of ModelsDev.SelectCandidates.
- Persistence failures of the upstream sync, of multi-key updates and of session saves.
- OggScan.GetOpusDuration: reads are full unless the file ends, and pre-skip is not subtracted, as the source does not (section 4 of RFC 7845 asks for it).
- Partial file reads, file-system errors other than failing to create or write the file, and file-size limits of seeks.
- CleanupOldDiskCacheFiles, ResetDiskCacheUsage and SyncDiskCacheStats: they set the counters from the file system.
- MultiKeyTheorems.RunsKeepWellFormed: the key list of a channel is changed only by the modelled actions, not by editing the channel.
- Random key selection, and the paged listing of key statuses.
- GenerateVerificationCode, and verification purposes other than the two of equal length.
- VerificationCodes.VerifiesIffStanding: purposes have one common length, as the two the program declares do.
- Rounding and output of the chosen ratios (controller/ratio_sync.go:698-700, 946-984).
