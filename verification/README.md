# Ghost Trace, verified

Ghost Trace collects interaction telemetry from web pages, turns it into features, judges how
bot-like a session looks, and archives every record it is sent. This project models the three
parts of it whose promises are hardest to see from any one function, and proves those promises.

**The archive.** Records arrive from a broker that redelivers, reorders and loses
acknowledgements; storage fails and processes die between any two durable writes. The books are
an events table keyed by content hash, and one row of five numbers.

- `Ledger` says what one accepted record, or one refusal, does to the books. `Accounting` gives
  the closed form of any sequence of such entries, and the exact law of the loss figure.
- `Durability` adds the disk: blob files, temporary files, and a fault that stops the storage
  after any number of durable micro-steps. `Substrate` is the store as the object it is, with
  methods that change its fields in place, each proved to do what `Durability` says.
- `Handling` and `Retry` are the consumer's batch handling and what repeated attempts come to;
  `Consumer` and `EventStream` are the object and the pull loop, proved against them.
- `Runs` is the archive and the broker as one state machine, `Settling` what a lost answer costs
  it, and `Drained` what the loss figure reads once traffic has ended. `Turns` shows that a turn of the pull loop is a run of that machine:
  it leaves the same disk, and what it acknowledges is what the machine has acknowledged.

**Features and judgement.** The page samples the pointer and cuts the samples into polylines;
the collector accumulates them in constant memory and scores the result.

- `Segmentation` and `Rhythm` compute the features from a whole history at once. `Pointer`,
  `Keystroke` and `Interaction` are the accumulators, each carrying a ghost history and proved
  to agree with the offline computation after every call. `Geometry` holds the lengths and angles.
- `Sdk` is the sampler on the page, `Session` the dispatch of telemetry, `OnCall` the
  alternative that keeps raw events and computes when asked.
- `Policy` judges, `Scoring` says what each score means, `Stable` orders the reasons, `Snapshot` carries features across a process
  boundary as 32-bit floats, and `SplitCost` bounds what that costs a score and a decision.

**Load measurement.** `Percentile` is nearest-rank order statistics; `Loadgen` is the open-loop
schedule with its bound on workers, the report, and the claim that coordinated omission is never
negative.

Conventions. Square roots, rounding and the content hash are function parameters. `IsRoot(root)`
says only that `root(x)` is a non-negative number whose square is `x`; `IsRounding(round)` says
rounding is idempotent, keeps the sign and errs by at most 2^-24 of the value; of the hash
nothing is assumed, not even that it has no collisions. Floating-point numbers are reals.

## What the code does that its comments do not say

- The loss figure can be negative. A refusal whose answer is lost is redelivered and counted
  again (`Runs.RefusedTwiceIsNegative`). A step can count a refusal twice if and only if the
  answer to a recorded refusal is still unheard (`Settling.CountedTwiceExactlyWhen`); while those
  answers arrive the figure is never negative, whatever else is lost, fails or dies
  (`Settling.NeverNegativeWhileRefusalsAreHeard`).
- The loss figure also counts content that arrived under a second sequence, since that is one
  commit and one duplicate over a span of two (`Accounting.LossIsUnseenOrShadowed`).
- The comment on `Position` calls `Committed` the number of commit operations. The code counts
  the records that inserted a row, and the model follows the code (`Accounting.BooksSummarise`).
- A batch holding both a malformed hash and a mismatching payload is acknowledged without the
  malformed sequences ever being recorded as refused, because the record-by-record path is not
  given them (`Handling.MixedIsAckedShort`, `Settling.MixedIsAckedAndGone`). The durable counts
  cover a batch if and only if it is not such a mixture (`Handling.NilAccountsForAllUnlessMixed`),
  and `Handling.NilExactlyWhen` says when a batch is acknowledged at all.
- A delivery whose metadata cannot be read is acknowledged with its batch and is neither stored
  nor refused (`Runs.UnplacedIsAckedAndGone`).
- A calibration whose two challenge thresholds are both zero is accepted, and under it a session
  nothing is known about is challenged (`Policy.SilenceIsNotBlocked`).

## Model

| member | source | states |
|---|---|---|
| Canonical.HexRoundTrip | libs/canonical/canonical.go:54-56 | Decoding a hash's hexadecimal text gives the hash back, for bytes of every length |
| Canonical.DecodesPairs | services/archive/internal/consumer/consumer.go:179-190 | Text is a hash's bytes exactly when it is pairs of hexadecimal digits, each pair the high half of its byte and then the low |
| Canonical.PayloadRefIsInjective | libs/substrate/substrate.go:297-304 | Two hashes never share a blob path, so the blob directory is a map from hashes |
| Ledger.EntriesDescribe | libs/substrate/substrate.go:790-812 | Column by column, each new row holds the event time, message type, commit time, sharded blob reference and, if it fits, the payload of the first record of its hash; rows already there are untouched |
| Ledger.ReplayAppend | libs/substrate/substrate.go:613-621 | Recording one series of entries after another is recording them all |
| Ledger.RefusalsFirst | libs/substrate/substrate.go:768-824 | Counting a batch's refusals before its records leaves the same books as after them |
| Ledger.RowsStay | libs/substrate/substrate.go:790-812 | A row, once there, is never changed or removed by any later entry, and every accepted record has a row |
| Accounting.BooksSummarise | libs/substrate/substrate.go:542-621 | After any entries in any order: the rows are the identities accepted, Committed is the row count, Committed plus Duplicates the accepted deliveries, Rejected the refusals, and the range is tight |
| Accounting.OrderIndependence | libs/substrate/substrate.go:613-679 | The stored hashes and all five numbers depend only on the multisets of acceptances and refusals |
| Accounting.BatchingIndependence | libs/substrate/substrate.go:727-829 | ... and not on how the deliveries were split into batched commits |
| Accounting.LossLaw | libs/substrate/substrate.go:581-607 | Unaccounted is exactly the walked sequences that neither inserted a row nor were refused, less the refusals recorded beyond the first per sequence |
| Accounting.LossIsUnseenOrShadowed | libs/substrate/substrate.go:588-607 | The same figure split into sequences nothing was decided about and sequences whose content another had brought |
| Durability.CommitIsAllOrNothing | libs/substrate/substrate.go:727-829 | Wherever a batched commit stops, an error leaves rows and position alone, success commits exactly the entries asked for, and blobs only grow, each under its own hash |
| Durability.CommitIsCrashSafe | libs/substrate/substrate.go:316-358 | After a crash at any durable micro-step the books are those before or those after, and every row reads back as bytes that hash to its key |
| Durability.CommitDescribesRows | libs/substrate/substrate.go:790-812 | After any batched commit that succeeds the new rows describe the records, column by column |
| Durability.VerifyNamesTheFirst | libs/substrate/substrate.go:732-747 | The error names the first wrong record: no sequence, or else bytes that are not its hash's |
| Durability.TempsAreCleaned | libs/substrate/substrate.go:316-358 | No temporary file outlives a call that succeeds, or fails and lives to clean up; a process that dies leaves at most one, empty or with all its bytes |
| Durability.ReadsOnlyItsHash | libs/substrate/substrate.go:364-401 | On any disk what is read hashes to what was asked for, and nothing is found only where there is neither inline payload nor blob |
| Durability.RowsAreReadable | libs/substrate/substrate.go:364-401 | Every row leads, inline or through its file, to bytes hashing to its key |
| Durability.BatchRefinesSingles | libs/substrate/substrate.go:727-919 | When the storage does not fail, a batched commit succeeds exactly when its records and refusals would one at a time, and leaves the same rows, blobs, position and temporary files |
| Durability.BatchDoneIsSinglesDone | libs/substrate/substrate.go:727-919 | Any batched commit that succeeds, however close its storage came to failing, leaves what the same records and refusals one at a time would |
| Durability.PutsExactlyWhenTheyAgree | libs/substrate/substrate.go:316-358 | A batch's blobs can all be written exactly when its oversized contents agree with each other and with the blobs there, hash by hash |
| Durability.WriteBlobsPuts | libs/substrate/substrate.go:750-762 | Writing a batch's blobs under any fault puts the blobs of a prefix of it, and with enough operations left fails only when two contents claim one hash |
| Substrate.Substrate.WriteBlob | libs/substrate/substrate.go:316-358 | The in-place write-once protocol, step for step: existing file compared, else temporary file, write, sync, rename, with the temporary removed unless the process died |
| Substrate.Substrate.StageRefusals | libs/substrate/substrate.go:766-778 | The loop with a zero sentinel finds the least and greatest refused sequence, and the one upsert it feeds leaves what refusing each in turn would |
| Substrate.Substrate.Stage | libs/substrate/substrate.go:766-824 | The statements of one transaction and its single upsert leave what recording every entry by itself would, equal hashes inside the batch included |
| Substrate.Substrate.AppendCanonicalBatch | libs/substrate/substrate.go:727-829 | The new rows, position, blobs, temporary files and error are those specified, whatever the fault; the journal grows by the entries committed; on success every new row describes its record, column by column |
| Substrate.Substrate.AppendCanonicalAt | libs/substrate/substrate.go:831-900 | One record by itself is a batch of one, fault for fault, and its row describes it |
| Substrate.Substrate.RecordRejected | libs/substrate/substrate.go:908-919 | One refusal by itself is a batch of one refusal |
| Substrate.Substrate.ReadBlob | libs/substrate/substrate.go:364-401 | Reading a stored record never fails and returns bytes of the hash asked for |
| Substrate.Substrate.PositionAndCount | libs/substrate/substrate.go:655-679 | The pair read agrees: as many rows as commits, and commits plus duplicates are the deliveries accepted |
| Handling.MismatchTouchesNothing | libs/substrate/substrate.go:732-747 | A batched commit reports a hash mismatch exactly when some record has one, and has then changed nothing |
| Handling.HandleProgress | services/archive/internal/consumer/consumer.go:206-285 | Every attempt on a batch, wherever it stops, commits a prefix of the same entries: all of them on nil, on an error some acceptances and no refusal |
| Handling.NilStoresTheItems | services/archive/internal/consumer/consumer.go:155-227 | After a nil each new row is the record of an item that was delivered, its identity decoded from that item's text, column by column |
| Handling.CleanBatchIsAtomic | services/archive/internal/consumer/consumer.go:206-227 | A fetch whose records all match is one transaction: all of its entries or, on any error, none |
| Handling.NilExplainsTheBatch | services/archive/internal/consumer/consumer.go:139-227 | After a nil every placed item of an unmixed batch has its hash in a row or its sequence refused; the shortfall of a mixed batch is exactly its malformed items |
| Handling.NilAccountsForAllUnlessMixed | services/archive/internal/consumer/consumer.go:247-285 | The durable counts grow by the number of placed items if and only if the batch does not mix a malformed hash with a mismatching payload |
| Handling.NilExactlyWhen | services/archive/internal/consumer/consumer.go:206-285 | With storage that lasts, a batch is handled to nil if and only if no two of the contents above the inline threshold that it keeps, and none of them and a stored blob, differ under one hash; contents that fit in a row never stand in the way |
| Handling.RefusedNilIsACollision | libs/substrate/substrate.go:119-122 | Over a sound disk and storage that lasts, a batch denied its nil exhibits two contents with one hash |
| Handling.MixedPair | services/archive/internal/consumer/consumer.go:216-281 | Any malformed item with any mismatching one, in a batch of two, is handled to nil with the mismatching sequence alone recorded |
| Handling.MixedIsAckedShort | services/archive/internal/consumer/consumer.go:216-281 | Under every hash there is such a batch, handled to nil from an empty archive with one of its two sequences recorded |
| Handling.HandleKeepsSound | services/archive/internal/consumer/consumer.go:206-285 | No attempt, however it ends, leaves a row without its bytes |
| Retry.RetriesConverge | services/archive/internal/consumer/consumer.go:206-285 | Any number of failed attempts, each failing anywhere, then one that succeeds leave the rows, blobs, range, commits and refusals of one clean attempt; only duplicates can be more |
| Retry.CatchUp | libs/substrate/substrate.go:790-824 | Having got as far as one prefix, starting again and getting as far as another is having got to the farther |
| Consumer.Consumer.Partition | services/archive/internal/consumer/consumer.go:155-204 | The loop splits a fetch into records, refusals with their reason and unplaced deliveries as specified, in order |
| Consumer.Consumer.HandleBatch | services/archive/internal/consumer/consumer.go:152-227 | The store, the error and the journal are those specified for any fault; on nil the new rows are the delivered items' own records; the counters grow by the records kept and all refusals noted only when nil is returned |
| Consumer.Consumer.DriveEach | services/archive/internal/consumer/consumer.go:247-270 | The record-by-record loop lands the matching records, sets the others aside, and stops at the first other error |
| Consumer.Consumer.Isolate | services/archive/internal/consumer/consumer.go:247-285 | Records one by one, then the mismatching sequences refused together; counters move only on success |
| Consumer.Consumer.Undecodable | services/archive/internal/consumer/consumer.go:309-327 | An undecodable message is refused durably when its sequence is known, and always counted |
| EventStream.Collect | libs/eventstream/jetstream.go:412-455 | A fetch is read in order: undecodable messages are accounted for and terminated, the rest held for one answer |
| EventStream.ConsumeOnce | libs/eventstream/jetstream.go:412-483 | One turn: every held message is acked on nil, naked on an error and left unanswered when the fetch broke, and the store is what the handler leaves |
| Runs.StepKeepsInvariant | libs/eventstream/jetstream.go:376-484 | Fetch, failure, drop, lost acknowledgement and crash all keep: sound disk, books equal to the journal, faithful journal, acked records stored |
| Runs.AckedIsDurableAndReadable | libs/eventstream/jetstream.go:412-483 | Once a placed delivery with a matching hash is acked, in every later state of every run its row exists and reads back as bytes of that hash |
| Runs.NilIsDurable | services/archive/internal/consumer/consumer.go:206-285 | Once a batch was handled to nil, each of its placed matching records reads back in every later state, whatever became of the acknowledgement |
| Runs.LossLawOverRuns | libs/substrate/substrate.go:542-607 | In every reachable state the loss figure is the gaps less the repeated refusals, never negative while no refusal was recorded twice; commits are rows and the deliveries add up |
| Runs.EveryRowIsReadable | libs/substrate/substrate.go:364-401 | In every reachable state, crashes included, every row reads back as bytes of its key |
| Runs.RefusedTwiceIsNegative | libs/substrate/substrate.go:588-607 | A run in which one malformed record, refused, redelivered and refused again, leaves the loss figure at -1 |
| Runs.UnplacedIsAckedAndGone | services/archive/internal/consumer/consumer.go:164-177 | A run in which a message with unreadable metadata is acked and nothing durable mentions it |
| Settling.NeverNegativeWhileRefusalsAreHeard | libs/substrate/substrate.go:588-607 | In every run in which the answers to recorded refusals arrive, acknowledgements of accepted records lost or not, storage failing and processes dying anywhere else, the loss figure is exactly the number of gaps, so never negative |
| Settling.CountedTwiceExactlyWhen | libs/substrate/substrate.go:613-621 | In every reachable state with no refusal counted twice, some next step counts one twice if and only if a recorded refusal's answer is unheard |
| Settling.StepRefusesOnce | services/archive/internal/consumer/consumer.go:206-285 | While the answers to refusals are heard every step keeps: each refusal recorded once, and its message settled |
| Settling.MixedIsAckedAndGone | services/archive/internal/consumer/consumer.go:216-281 | A run that acks a malformed and a mismatching record delivered together, after which nothing durable mentions the first |
| Drained.DrainedFigure | libs/substrate/substrate.go:542-556 | Once the broker holds nothing more, every message having been decided before it was let go, the figure is the stream's own holes and the repeated content, less repeated refusals: nothing the stream held is missing |
| Drained.DrainedReadsZero | libs/substrate/substrate.go:542-556 | A drained stream without holes or repeated content, its refusals heard, reads zero, whatever failed or was redelivered on the way |
| Drained.NilDecides | services/archive/internal/consumer/consumer.go:139-227 | After a nil on an unmixed batch every placed item of it is accepted or refused in the journal |
| Turns.TurnIsARun | libs/eventstream/jetstream.go:412-483 | One turn of the pull loop over distinct pending messages is a possible run; it leaves the same disk, and settles and acks exactly the messages the loop answered and the broker heard |
| Turns.Consume | libs/eventstream/jetstream.go:412-483 | The turn over the real store leaves a state the machine reaches, its invariant included; a message is settled exactly when it was acked or terminated and the broker heard, and an acked placed one matching its hash is in the store whether or not it heard |
| Turns.AckedByTheLoopIsReadable | libs/eventstream/jetstream.go:412-483 | What the loop acked, placed and matching its hash, reads back in that state and after anything that follows, the ack heard or lost |
| Geometry.DistIsEuclidean | libs/feature/pointer.go:269-273 | A distance is not negative and its square is the sum of the squared coordinate differences |
| Geometry.TriangleInequality | libs/feature/pointer.go:269-273 | The straight way between two points is no longer than the way through a third |
| Geometry.TurnIsExact | libs/feature/pointer.go:196-208 | The 60 degree test holds exactly when both steps are nonzero and the dot product is negative or four times its square is below the product of the squared lengths |
| Segmentation.OneMoreSample | libs/feature/pointer.go:159-191 | In the offline split, a new sample ends the open leg at a pause or a corner, the corner belonging to both legs, or lengthens it |
| Segmentation.SplitAtPausesAndCorners | libs/feature/pointer.go:159-191 | A history is split at every pause over 300 ms and at every corner, and nowhere else |
| Segmentation.HeadingIsLastTrusted | libs/feature/pointer.go:165-186 | The direction a turn is measured from is the last step of at least four pixels, with no pause since |
| Segmentation.PathIsItsSteps | libs/feature/pointer.go:188-190 | A path adds up over its parts, and one step of it is the distance between the samples it joins |
| Segmentation.FeaturesAreTheMeasure | libs/feature/pointer.go:216-267 | Of any history, straightness times path is the sum, over the legs of at least four samples and forty pixels, of the distances between their ends; path and segments are of the same legs |
| Segmentation.ExtendSamples | libs/feature/pointer.go:137-154 | Sample by sample what a polyline adds: places, times, own gaps, and before the first the gap the clock shows |
| Segmentation.NetIsAtMostPath | libs/feature/pointer.go:255-267 | Net displacement over any stretch is at most the path walked, by the triangle inequality at every step |
| Segmentation.OfflineStraightnessIsAFraction | libs/feature/pointer.go:110-128 | Mean straightness of any history lies in [0, 1] |
| Segmentation.MoreSamples | libs/feature/pointer.go:210-230 | Further samples never lower the segment count or the qualifying path, across closes, turns and the open segment |
| Pointer.Pointer.Add | libs/feature/pointer.go:137-193 | After any polyline every field of the constant-memory accumulator is what the offline split of the whole history says |
| Pointer.Pointer.Move | libs/feature/pointer.go:168-191 | The step, the turn and the restart at the corner leave the fields of the longer history |
| Pointer.Pointer.CurrentSegment | libs/feature/pointer.go:251-267 | The open segment's straightness and path are those of the offline open leg; the clamp changes nothing |
| Pointer.Pointer.State | libs/feature/pointer.go:216-230 | The features read are those of the whole history, the open leg counted, with straightness in [0, 1]; AnswersTheMeasure says what they are in distances between samples |
| Pointer.OneReachIsMeasured | libs/feature/pointer.go:216-267 | One reach of four samples and forty pixels is answered straight in the proportion of the distance between its ends to the path between them; a smaller one is no segment |
| Pointer.AnswersTheMeasure | libs/feature/pointer.go:216-230 | Of any history the accumulator answers the measure of its legs |
| Pointer.SameHistorySameFields | libs/feature/pointer.go:82-109 | Two accumulators fed the same history in different pieces agree in every field that is read |
| Sdk.CutAnywhere | services/collector/internal/sdk/sdk.js:278-282 | Cutting a sample stream at one place leaves the history uncut |
| Sdk.UncutIsTheSamples | services/collector/internal/sdk/sdk.js:97-117 | The uncut history is the samples taken, each at its time with the time since the one before |
| Sdk.Sampler.SamplesAreSpaced | services/collector/internal/sdk/sdk.js:100-104 | In every state each sample came at least 1000 ms over the rate after the one before |
| Sdk.CutInvariance | services/collector/internal/sdk/sdk.js:278-300 | However an increasing stream is cut into polylines they add up to the uncut history |
| Sdk.CutsLeaveTheAccumulator | libs/feature/pointer.go:130-154 | ... and the accumulators they leave, with their features, are the same |
| Sdk.Sampler.PointerMove | services/collector/internal/sdk/sdk.js:97-117 | A move too soon changes nothing; any other adds one rounded sample with its gap, and exactly the 256th of a polyline moves it whole to the queue |
| Sdk.Sampler.Push | services/collector/internal/sdk/sdk.js:160-200 | Another channel's event joins the queue without touching what the pointer samples add up to |
| Sdk.Sampler.Flush | services/collector/internal/sdk/sdk.js:287-317 | A flush cuts, session or not, and posts the whole queue exactly when there is a session and something to post |
| Sdk.Sampler.PendingIsUncut | services/collector/internal/sdk/sdk.js:97-117 | In every state what was posted, queued and kept back adds up to the samples sent as one polyline |
| Rhythm.VarianceFromSums | libs/feature/keystroke.go:149-163 | The variance from two running sums is the two-pass variance about the mean, and is never negative |
| Rhythm.VariationVanishes | libs/feature/keystroke.go:149-163 | A coefficient of variation is zero exactly when its intervals are all the same |
| Rhythm.PressEndsAFlight | libs/feature/keystroke.go:99-113 | A press of an ordinary key ends a flight of the time since the last ordinary key went up, unless negative or over 2000 ms |
| Rhythm.ReleaseEndsADwell | libs/feature/keystroke.go:115-126 | A release ends a dwell of the time its own key was down, if between 1 and 1000 ms |
| Rhythm.RepeatsAreCounted | libs/feature/keystroke.go:104-106 | Exact repeats are the places where a flight equals the one before it |
| Rhythm.SquaresDominate | libs/feature/keystroke.go:145-163 | The count times the sum of squares is at least the square of the sum |
| Rhythm.RepeatsAreFewer | libs/feature/keystroke.go:102-112 | Exact repeats stay strictly below the number of flights |
| Rhythm.RhythmIsPlausible | libs/feature/keystroke.go:131-143 | A nonzero mean dwell lies in [1, 1000] and the repeat ratio in [0, 1) |
| Keystroke.CvIsVariation | libs/feature/keystroke.go:149-163 | The one-pass coefficient of variation is the two-pass one, its clamp never acting |
| Keystroke.HoldsNext | libs/feature/keystroke.go:94-127 | One event changes whether its own key is held and no other's |
| Keystroke.Keystroke.AddKey | libs/feature/keystroke.go:86-128 | After any event the sums, repeats, last up and pending keys are those of the whole list of events |
| Keystroke.Keystroke.SumsAreSound | libs/feature/keystroke.go:86-163 | In every reachable state count times sum of squares is at least the squared sum, for flights and dwells, and repeats stay below the flights |
| Keystroke.Keystroke.State | libs/feature/keystroke.go:131-143 | The typing features read are those computed offline from all events, each figure of its own intervals: flightCV and the repeat ratio of the flights, dwellCV and the mean of the dwells, none before six |
| Keystroke.RegularTypingIsZero | libs/feature/keystroke.go:131-163 | Once there are six, flightCV is zero exactly when the flights are all the same, and dwellCV exactly when the dwells are |
| Interaction.CountsOneMore | libs/feature/interaction.go:72-116 | What one more event of each kind adds to each count and field set of a bag of events |
| Interaction.ScrollIsCounted | libs/feature/interaction.go:72-77 | A scroll adds one to the scrolls answered, and to the programmatic ones the ratio stands for if the page made it, and changes nothing else |
| Interaction.FocusIsCounted | libs/feature/interaction.go:80-88 | A focus event adds one transition, and one field if it is named and new |
| Interaction.FormIsCounted | libs/feature/interaction.go:99-116 | A paste, an autofill and an injection add one each to their own feature, an injected field once |
| Interaction.MoreTouches | libs/feature/interaction.go:119-134 | More events lower none of the counts a judgement weighs and never make the programmatic ratio vanish |
| Interaction.Interaction.AddForm | libs/feature/interaction.go:99-116 | The four form actions move their own counter only, and named injected fields are collected once |
| Interaction.Interaction.State | libs/feature/interaction.go:119-134 | The features read depend only on the bag of events, never on their order |
| Stable.SortIsStable | libs/policy/policy.go:272-274 | Sorting leaves weights falling and reasons of equal weight in the order they came |
| Stable.StableSortPermutes | libs/policy/policy.go:272-274 | ... with nothing added, lost or repeated |
| Stable.StableSortIsUnique | libs/policy/policy.go:272-274 | ... and there is only one such order |
| Policy.Judge | libs/policy/policy.go:210-277 | The loop computes the weighted judgement; score, confidence and every reason weight lie in [0, 1], and the reasons are a stable sort of what was contributed |
| Scoring.StraighterIsMoreSuspect | libs/policy/policy.go:279-291 | The pointer's score never falls as straightness rises, is zero exactly up to the floor, one exactly from the ceiling, and in proportion between |
| Scoring.MoreRegularIsMoreSuspect | libs/policy/policy.go:293-321 | Where rhythm alone speaks, the typing score never rises with the flights' variation, is zero exactly from its upper bound and one exactly up to its lower |
| Scoring.TypingScore | libs/policy/policy.go:293-321 | The typing score is the loudest of rhythm from the flights, hold from the mean dwell, and repeats |
| Scoring.ShorterHoldIsMoreSuspect | libs/policy/policy.go:304-308 | A mean hold speaks by how far it falls short of a physical one, in proportion; no hold says nothing |
| Scoring.StructureScore | libs/policy/policy.go:323-363 | The structural score is the loudest of injection at 0.55 and 0.25 a field, self-made scrolls doubled, and 0.6 for no focus |
| Scoring.PointerEvidence | libs/policy/policy.go:285-286 | Pointer confidence is half segments and half path, each up to its fill, full exactly when both are |
| Scoring.StructureEvidence | libs/policy/policy.go:323-363 | Injection and self-made scrolls are full evidence; otherwise six focus events or twenty scrolls are |
| Scoring.ReasonsNameTheirCauses | libs/policy/policy.go:259-363 | Every reason names what it is about and weighs what that says; evidence is called insufficient exactly when confidence is under the floor, by its lack |
| Scoring.JudgementWeighs | libs/policy/policy.go:210-257 | Confidence is the channels' evidence at the action's own weights over the dominant weight, and the score times that evidence is their votes; as many channels contribute as have any confidence |
| Scoring.WeightsTable | libs/policy/policy.go:151-168 | Which channel weighs what for which action |
| Scoring.JudgedStraightness | libs/policy/policy.go:210-291 | With the pointer alone to go on, for every action, the judged score follows straightness in the same way |
| Scoring.JudgedRegularity | libs/policy/policy.go:210-321 | With rhythm alone to go on, for every action, the judged score follows regularity in the same way |
| Policy.ScoreIsBetween | libs/policy/policy.go:225-257 | The score lies between the least and greatest score of the channels holding evidence |
| Policy.SilentChannelsAbstain | libs/policy/policy.go:225-257 | What a channel without evidence scores changes neither score, confidence nor the contributing count |
| Policy.ScoreIsExplained | libs/policy/policy.go:259-277 | A score above zero is never given without a reason: the first reason listed weighs at least as much |
| Policy.KeystrokeExplains | libs/policy/policy.go:293-321 | The typing channel's score is the weight of its heaviest reason, and zero when it gives none |
| Policy.InteractionExplains | libs/policy/policy.go:323-363 | The same of the structural channel |
| Policy.RampRises | libs/policy/policy.go:404-412 | The ramp is zero exactly up to its start, one exactly from its end, and never falls between |
| Policy.RampFalls | libs/policy/policy.go:404-412 | ... and the other way round where low values are the suspicious ones |
| Policy.ConfidenceGrows | libs/policy/policy.go:256-277 | For any action and accepted calibration, at least as much evidence means at least as much confidence and as many contributing channels |
| Policy.Enforced | libs/policy/policy.go:388-402 | Block exactly when score, confidence and contributing channels all reach their block thresholds; otherwise challenge only when both challenge thresholds are reached, and allow only when one is not |
| Policy.SilenceIsNotBlocked | libs/policy/policy.go:388-402 | A session with no evidence is never blocked, and is challenged exactly when both challenge thresholds are zero |
| Snapshot.RoundTripIsClose | libs/snapshot/snapshot.go:25-94 | The trip keeps every count, keeps the sign of every ratio and moves it by at most 2^-24 of itself, and a second trip changes nothing |
| Snapshot.WireNames | libs/snapshot/snapshot.go:25-48 | On the wire every figure goes under its own name, ratios rounded and counts as they are |
| Snapshot.NothingArrived | libs/snapshot/snapshot.go:50-60 | A snapshot that never arrived is judged as a session nothing is known of, and never blocked |
| Snapshot.SplitErrorBound | libs/snapshot/snapshot.go:89-94 | For every state, action and accepted calibration the contributing count is the same and confidence moves by at most 2^-25 |
| SplitCost.RampMoves | libs/policy/policy.go:404-412 | A clamped ramp of a rounded value moves by at most the rounding error times its steepness |
| SplitCost.ScoreErrorBound | libs/snapshot/snapshot.go:89-94 | For every state, action and accepted calibration the score moves by at most 2^-24 times one more than the steepness of the calibration's ramps |
| SplitCost.DecisionSurvives | libs/policy/policy.go:388-402 | A judgement clear of the four thresholds by those bounds gives the same decision, and outcome in either mode, on both sides of the split |
| SplitCost.BuiltInCost | libs/policy/calibration.json:1-16 | The built-in calibration is accepted, and under it a score moves by less than one part in a million |
| Session.Session.Dispatch | services/collector/internal/app/ingest_telemetry.go:85-109 | One event reaches the accumulator of its kind, and an unknown one reaches none |
| Session.Session.IngestTelemetry | services/collector/internal/app/ingest_telemetry.go:80-122 | After an envelope the session holds the features of all events so far, however batched, and the snapshot taken is of exactly those |
| Session.LatestIsLatest | services/collector/internal/session/session.go:73-89 | The last event time is one of the times claimed or the one before, and none is later |
| Session.EvidenceIsKept | libs/policy/policy.go:279-363 | Along any run of events no evidence a judgement weighs is ever lost |
| Session.ConfidenceNeverFalls | libs/policy/policy.go:210-277 | Along any run of events, for any action and accepted calibration, confidence and contributing channels never fall |
| Session.CollectedAsSampled | services/collector/internal/sdk/sdk.js:97-117 | A session that ingested all a page sampled has the pointer features of the uncut sample stream |
| OnCall.OnCallState.Compute | services/collector/cmd/bench-architecture/oncall.go:154-174 | Replaying the retained channels one after another gives the features of the interleaved events appended |
| OnCall.OnCallState.RecordAll | services/collector/cmd/bench-architecture/oncall.go:127-148 | A batch adds to the retained history exactly its events of the kinds that are kept, in order |
| OnCall.MaintainedEqualsOnCall | services/collector/cmd/bench-architecture/oncall.go:127-174 | For every interleaved stream the features of the whole and of what is retained of it agree but for the hidden periods |
| OnCall.ObjectsAgree | services/collector/cmd/bench-architecture/oncall.go:127-174 | A session and an on-call state that saw the same stream agree but for the hidden periods, and every judgement of the two is identical |
| OnCall.Compare | services/collector/cmd/bench-architecture/oncall.go:127-174 | One stream fed to both objects, batched differently: what is maintained is what Compute returns but for the hidden periods, and it is judged the same |
| OnCall.StatesAgreeUnlessHidden | services/collector/cmd/bench-architecture/oncall.go:49-60 | ... and agree entirely if and only if the page was never hidden |
| OnCall.JudgementsAgree | services/collector/cmd/bench-architecture/oncall.go:127-174 | ... so that every judgement is identical, for every action |
| Percentile.PctIsNearestRank | tools/loadgen/loadgen.go:267-286 | The percentile is an observed sample, and the least value with its rank's worth of samples at or below it |
| Percentile.RankIsCeiling | tools/loadgen/loadgen.go:278-285 | The rank is the ceiling of p/100 of the sample count |
| Percentile.FloatRankIsExact | tools/loadgen/loadgen.go:278-285 | The rank computed in 64-bit floats is the exact one for every count up to 2^40, for percentages such as 50 and 99 whose hundredth does not round up |
| Percentile.DominatedPercentiles | tools/loadgen/loadgen.go:272-286 | If one sample is at most another pointwise, so is each of its percentiles |
| Percentile.StrictlyDominatedPercentiles | tools/loadgen/loadgen.go:272-286 | If one sample is below another pointwise, so strictly is each of its percentiles |
| Percentile.PctGrowsWithRank | tools/loadgen/loadgen.go:272-286 | A higher percentage never gives a lower percentile |
| Loadgen.Run | tools/loadgen/loadgen.go:111-176 | Every request is due by the schedule alone; the driver comes to it when it is due and the one before has its slot, or as late as it wakes; it gets a slot no earlier, never while that slot is held, and is reported with what happened to it |
| Loadgen.WorkersAreTheBound | tools/loadgen/loadgen.go:132-157 | At no moment do more requests hold a slot than there are workers |
| Loadgen.OnlyTheBoundDelays | tools/loadgen/loadgen.go:91-101 | While a due request waits and the driver is not late to wake, exactly as many requests are in flight as there are workers |
| Loadgen.PunctualDriver | tools/loadgen/loadgen.go:135-144 | A driver whose timers fire on time is never late, so only the bound delays |
| Loadgen.ResponseRunsFromDue | tools/loadgen/loadgen.go:74-81 | A response runs from the due time: it is deficit and service together, and the service alone only for a request that started on time |
| Loadgen.ResponseInARun | tools/loadgen/loadgen.go:140-171 | In a run it is the wait for a slot from the due time, the worker's lag and the time taken |
| Loadgen.IssuedAreKept | tools/loadgen/loadgen.go:228-234 | The requests counted are those with a due time, each as often as it was returned |
| Loadgen.FailuresAreCounted | tools/loadgen/loadgen.go:235-239 | Failures are the requests nothing came back for, or a status of 500 or more did |
| Loadgen.LatenessIsOmission | tools/loadgen/loadgen.go:199-204 | When every request started late, response is above service at every percentile |
| Loadgen.Summarise | tools/loadgen/loadgen.go:216-263 | Requests never issued are left out, failures are counted and their latencies included, and every figure is the one named |
| Loadgen.OmissionIsNotNegative | tools/loadgen/loadgen.go:251-258 | At every percentile response is at least service when no request starts early |
| Loadgen.Measure | tools/loadgen/loadgen.go:178-214 | For any run left to finish: requests are successes plus failures and all that were scheduled, omission and deficit are not negative, omission is positive when every worker lags, P50 is at most P99 |

## Left out

- NATS, SQLite and the file system inside: a fetch, an acknowledgement, a transaction and a rename are atomic steps with crash points between them; a rename is durable when it returns, and a commit either happens or reports an error.
- A transaction's begin, prepare, insert, upsert and commit failures are one failure: each leaves the rolled-back state.
- The directory made for a blob, and the order in which a failed write, sync or close is reported: they change no durable outcome.
- Clock readings: one reading per attempt for all of its rows; `committedAt` is ignored where two attempts are compared.
- Durability.BatchRefinesSingles: compares calls whose storage does not fail, as BatchDoneIsSinglesDone does any that succeeds; calls that fail are covered by CommitIsAllOrNothing and Retry.RetriesConverge.
- Runs.AckedIsDurableAndReadable: speaks of deliveries whose metadata was readable; UnplacedIsAckedAndGone shows why the others are excluded.
- Turns.TurnIsARun: assumes one fetch does not hold the same message twice, and so does Settling.NeverNegativeWhileRefusalsAreHeard.
- Drained.DrainedFigure: of runs that ack a mixed batch or an unreadable delivery, or terminate an undecodable message whose refusal was not recorded; such a message is let go undecided.
- The plain Append and AppendCanonical entry points, the row walk, and the schema migrations: easy members beside the batched commit.
- The driver's nil against empty payload: an empty payload is stored inline as empty bytes.
- Sequences, counts, times and coordinates are unbounded: 32-bit and 64-bit wrap-around is not modelled.
- Rounding inside the accumulators and the scores: reals are used, and the arccosine is replaced by its comparison with one half.
- Policy.Judge: the sort is an insertion sort, which Stable.StableSortIsUnique shows to be the only stable result.
- Snapshot.SplitErrorBound: ratios small enough to underflow a 32-bit float are outside the rounding hypothesis.
- SplitCost.DecisionSurvives: says nothing of a judgement within the bounds of a threshold, nor of which reasons are listed and in what order.
- The page's other channels, the field identity hash and the demo's injected path: the sampler treats their events as opaque.
- Sdk.Sampler.PointerMove: takes the page clock as an argument that does not run backwards.
- Loss, reordering and repetition of telemetry batches between page and collector: sequence numbers are recorded and nothing is deduplicated on them.
- Session lookup and expiry, the snapshot store and archiving of telemetry: the session is given, and what would be published is returned.
- Loadgen.Run: a run that is cancelled; how late the driver wakes and a worker with a slot starts is the world's, and a slot is free the moment its request ends.
- Percentile.FloatRankIsExact: percentages whose hundredth rounds up, such as 7, which the program never asks for.
- HTTP, logging, metrics, tenant loading, calibration file parsing and reference strings.
