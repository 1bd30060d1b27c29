# EstateFlow: a verified model of its core logic

EstateFlow collects rental announcements, extracts them with language models, publishes
channel posts, and answers searches.  This Dafny project models the parts of it that keep
state, branch or calculate, and proves what they promise over whole runs, over every input,
and over every interleaving of concurrent transactions.

`dafny verify dfyconfig.toml` checks the whole project.  Each module is one file:

- `Referrals`, `ReferralTransactions`: the referral ledger.  The in-memory repository is a
  class proved against functions on a `Ledger`.  The database version is a state machine
  with one step per SQL statement; every interleaving is shown to be serializable to the
  in-memory operation.
- `SearchFilter`: the compiler from search criteria to SQL conditions and numbered
  parameters, with a small SQL expression tree and three-valued evaluation, compared with
  the plain filter of the in-memory search.
- `Bundler`: the worklist of the service bundler over a finite file tree, compared with a
  least fixpoint.
- `LlmDecisions`, `LlmClient`, `AiWorker`: the model fallback loop and its audit trail, the
  worker that turns its answer into a stored and published record, and their agreement.
- `PythonText`, `TelegramText`, `ContentAutomation`, `ContentPreview`: the channel posts
  with their daily cap, idempotency keys and backoff, the text normaliser, and what the
  preview says about the real run.
- `TagKeys`, `AudienceTags`, `AudienceTagService`, `TagRuns`: the tag normaliser, the tag
  repository and service in place, and properties of whole runs.
- `Counting`, `Analytics`, `TechnicalMetrics`: cohort ratios from a bounded fetch, event
  buckets, and the aggregates of the technical snapshot.
- `FeatureFlags`: optimistic versions and the audit chain under concurrent writers.
- `Callbacks`: the base-36 and delimiter codec of button payloads.

Abstractions.  Times are integers; prices, confidences and similarity ratios are reals.  What
comes from outside is a parameter: transport outcomes, publisher outcomes, notifier and
storage failures, rendered texts, a file's imports, case folding, fresh ids and the clock.
Where the source changes fields in place the model is a class whose methods are proved
against functions on values, and the lemmas are about those functions.

Locking.  Both concurrent models assume PostgreSQL at READ COMMITTED: a row lock is held to
the end of its transaction, a statement that waited sees the latest committed row, writes are
invisible before commit, and an insertion waits for an unfinished insertion of the same
unique key.

Results where the code does less than one might expect, each with its exact condition and an
input that shows it:

- The compiled search condition means the plain filter exactly when the database's folding
  and Python's select the same district names (`WhereMeansMatchesIff`; for the rows of one
  district `GivenDistrictIff`).  With one folding for both, only a selected name that folds to
  nothing breaks it (`OneFoldingIff`).  The one-district and the many-district form agree for
  a name exactly when both foldings of it are equal (`DistrictFormsAgree`).  The German sharp s,
  which Python folds to "ss" and the database keeps, breaks both (`SharpSIsMissed`).
- The total reported with a page is the number of selected rows exactly when there are none or
  the offset is below it; beyond the last one it is 0 (`TotalIsSelectedCount`,
  `TotalBeyondTheLastRow`).
- The preview predicts the run exactly when the run comes to no failed post that is due for
  a retry (`PreviewPredictsRun`, `RetryIsMissed`).
- Rejecting a tag does not move its references, so a step keeps the reference property
  exactly when it does not reject a tag still referenced (`StepKeepsNoRejectedRefs`,
  `RejectedFamilyIsReferenced`).
- The retention fetch would be enough exactly from `end + 7 days + width - 1 microsecond` on;
  the code fetches a day more (`FetchIsEnoughIff`, `ShorterFetchMisses`).

What the worker relies on.  A key is published at most once as long as no notification raises
an error that the worker itself handles.  Both notification services of the program meet this:
one does nothing, the other drops every error of sending and lets only a cancellation through
(`ShippedNotifiersPublishOnce`).  The protocol alone does not promise it, and another notifier
could make a redelivery publish again (`SealedUnlessNotifierRaises`,
`RaisingNotifierRepublishes`, `RepublishedRental`).  Saving a record never fails in the model;
the only store of the program keeps records in memory.

## Model

| member | source | states |
|---|---|---|
| Referrals.InMemoryUserRepository.UpsertTelegramUser | src/estateflow/repositories/users.py:27-35 | a known user is only touched, an unknown one starts without referrals or premium |
| Referrals.InMemoryUserRepository.CreatePendingEvent | src/estateflow/repositories/users.py:56-82 | the ledger and result of creating a pending event, with its three refusals |
| Referrals.InMemoryUserRepository.Activate | src/estateflow/repositories/users.py:84-147 | the ledger and result of one atomic activation |
| Referrals.ActivationOutcome | src/estateflow/repositories/users.py:94-113 | each outcome holds exactly for its state of the stored event and its referrer, and only an activation writes |
| Referrals.ActivationWritesEvent | src/estateflow/repositories/users.py:115-121 | the stored event is the returned one, active, with the qualifying key and the time, for the same two users |
| Referrals.ActivationWritesUser | src/estateflow/repositories/users.py:113-145 | the referrer has one more referral, which is the reported count, and no other row changes |
| Referrals.ActivationAwards | src/estateflow/repositories/users.py:123-141 | an award exactly when the new count reaches the threshold for the first time, and then premium one extension past the later of its end and now |
| Referrals.CreationWrites | src/estateflow/repositories/users.py:63-82 | which of the four results, and the pending event and fixed referrer that a creation stores |
| Referrals.UpsertWrites | src/estateflow/repositories/users.py:27-35 | a known user keeps everything but the time of the update, a new one has nothing yet |
| Referrals.ActivationAddsOne | src/estateflow/repositories/users.py:113-121 | an activation adds exactly the activated event to its referrer's active events |
| Referrals.ApplyKeepsSound | src/estateflow/repositories/users.py:56-147 | every operation keeps counts equal to active events and awards earned |
| Referrals.CountsMatchEvents | src/estateflow/repositories/users.py:56-147 | in every reachable ledger each count is the number of active events naming that referrer |
| Referrals.AwardIffThresholdReached | src/estateflow/repositories/users.py:125-141 | with one threshold of at least 1, the award exists exactly when the count has reached it |
| Referrals.PremiumBounds | src/estateflow/repositories/users.py:124-135 | after k awards premium ends between first award + k extensions and last award + k extensions |
| Referrals.NoAwardsBeforeUser | src/estateflow/repositories/users.py:113-135 | nobody who is not a user was ever awarded |
| ReferralTransactions.CommitIsAtomic | src/estateflow/repositories/users.py:329-370 | what a transaction writes at commit is one atomic activation of the database as committed then |
| ReferralTransactions.CommitKeepsOthers | src/estateflow/repositories/users.py:292-354 | a commit leaves everything the other transactions have read under lock as it was |
| ReferralTransactions.StepKeepsExclusive | src/estateflow/repositories/users.py:292-354 | no two transactions ever hold one event row or one user row |
| ReferralTransactions.StepKeepsOwn | src/estateflow/repositories/users.py:290-370 | a step changes the database only by finishing, and then as the atomic activation does |
| ReferralTransactions.Serializable | src/estateflow/repositories/users.py:281-370 | any interleaving, rollbacks included, leaves the database and results of some sequential order of atomic activations |
| ReferralTransactions.NoLostIncrement | src/estateflow/repositories/users.py:342-354 | counts equal active events after any interleaving |
| ReferralTransactions.NothingHappensTwice | src/estateflow/repositories/users.py:329-341 | no event is activated twice and no milestone awarded twice, in any interleaving |
| ReferralTransactions.ActivationsKeepKeysUnique | src/estateflow/repositories/users.py:329-341 | after any interleaving all events have different keys, and a finished activation's event has the key and time of its request |
| ReferralTransactions.OneActivationPerKey | src/estateflow/models/referrals.py:28 | no qualifying key activates two events, in any interleaving |
| ReferralTransactions.StatementsProgress | src/estateflow/repositories/users.py:290-370 | every statement takes its transaction further and leaves the others where they are |
| ReferralTransactions.FailsOnlyForCause | src/estateflow/repositories/users.py:329-432 | a statement fails exactly for a taken key, a missing referrer, or a milestone below one |
| ReferralTransactions.WaitsIff | src/estateflow/repositories/users.py:292-432 | a statement waits exactly for a row, key or award that another unfinished transaction holds |
| ReferralTransactions.NeverStuck | src/estateflow/repositories/users.py:290-370 | while a transaction is unfinished, some transaction can run its next statement |
| SearchFilter.Where | src/estateflow/repositories/search.py:112-146 | appending step by step yields the specified conditions and parameters |
| SearchFilter.AppendDetails | src/estateflow/repositories/search.py:135-145 | the second half of the compiler |
| SearchFilter.BindAdds | src/estateflow/repositories/search.py:121-145 | one more parameter adds one condition over its own number and leaves the meaning of the others |
| SearchFilter.NullIsUnknown | src/estateflow/repositories/search.py:119-145 | a comparison with NULL on either side, and its negation, is unknown |
| SearchFilter.WhereSelects | src/estateflow/repositories/search.py:112-146 | for every criteria and row: all placeholders in range and all parameters used, and the NULL-aware meaning of the whole condition; a NULL price fails any price bound |
| SearchFilter.WhereMeansMatchesIff | src/estateflow/services/search.py:160-197 | the compiled condition selects exactly the stored rows that the plain filter accepts, if and only if the database's folding and Python's select the same district names and no selected name folds to nothing |
| SearchFilter.OneFoldingIff | src/estateflow/services/search.py:181-184 | with one folding it does so if and only if no selected name folds to nothing |
| SearchFilter.GivenDistrictIff | src/estateflow/services/search.py:181-184 | for the rows of one district it does so if and only if both foldings select that district's name, or neither does |
| SearchFilter.SharpSIsMissed | src/estateflow/repositories/search.py:127-134 | a criteria and a stored row that the plain filter accepts and the compiled condition misses, and a name on which the two district forms differ |
| SearchFilter.WhereMeansMatches | src/estateflow/services/search.py:160-197 | it does so for a row when both foldings agree on the names compared |
| SearchFilter.DistrictFormsAgree | src/estateflow/repositories/search.py:127-134 | the two district conditions agree for a name exactly when both foldings of it are equal |
| SearchFilter.LimitAndOffsetAreFresh | src/estateflow/repositories/search.py:29-30 | the numbers of limit and offset occur in no condition and get the right arguments |
| SearchFilter.BeforeIsStrictTotalOrder | src/estateflow/repositories/search.py:11-19 | each sort order is a strict order, total on rows with different ids |
| SearchFilter.OrderIsDetermined | src/estateflow/repositories/search.py:11-19 | a set of rows has only one arrangement in sort order |
| SearchFilter.FoundIsSorted | src/estateflow/repositories/search.py:11-19 | cheap first, dear first or new first as asked; rows without a price last, newer rows first among equals |
| SearchFilter.ArrangementExists | src/estateflow/repositories/search.py:11-19 | rows with different ids can always be put in sort order |
| SearchFilter.SearchResult | src/estateflow/repositories/search.py:59-69 | the rows of the records in order, and the total read off the first record |
| SearchFilter.TotalIsSelectedCount | src/estateflow/repositories/search.py:51-60 | for every table and criteria, the reported total is the number of rows the compiled condition selects, if and only if there are none or the offset is below it |
| SearchFilter.TotalBeyondTheLastRow | src/estateflow/repositories/search.py:60 | a table with one selected row and an offset of 1 reports 0 |
| SearchFilter.PagesShareRows | src/estateflow/repositories/search.py:56-61 | each page is its slice of the table's selected rows in sort order |
| SearchFilter.PagesTile | src/estateflow/repositories/search.py:56-61 | the pages of a table put together are its selected rows in sort order, without gap or overlap |
| Bundler.PackageInitializers | scripts/build_service_bundle.py:108-118 | exactly the existing initialisers from the file's directory up to the root |
| Bundler.InitializerIff | scripts/build_service_bundle.py:108-118 | the initialisers are those of the file's directory and of each above it up to and with the root |
| Bundler.ImportTargets | scripts/build_service_bundle.py:33-36 | exactly the resolved imports that are not visited yet |
| Bundler.ResolveIff | scripts/build_service_bundle.py:71-85 | where an import is looked up, the module file before the package, and nothing else |
| Bundler.ModuleIsFile | scripts/build_service_bundle.py:72-83 | a full module name is the file of that name below the root |
| Bundler.SiblingIsFile | scripts/build_service_bundle.py:76-83 | one dot is the importing file's directory, each further dot the one above |
| Bundler.SuffixIsReplaced | scripts/build_service_bundle.py:81 | a name without a dot gets the suffix, one with a dot has its last part replaced |
| Bundler.PythonIff | scripts/build_service_bundle.py:25 | a Python file is one named something and then ".py" |
| Bundler.BundleIsUnique | scripts/build_service_bundle.py:20-36 | the least closed set of files is unique |
| Bundler.TurnKeepsWorking | scripts/build_service_bundle.py:23-36 | taking any pending file keeps the worklist invariant, whatever the order |
| Bundler.TurnsDecrease | scripts/build_service_bundle.py:23-36 | every turn decreases (unvisited files, pending files) lexicographically, cycles included |
| Bundler.DrainedIsBundle | scripts/build_service_bundle.py:23-36 | when nothing is pending, the visited files are the least closed set |
| Bundler.AnyOrderBundles | scripts/build_service_bundle.py:20-36 | every run that empties the worklist, taking pending files in any order, ends with the least set |
| Bundler.NoOrderGoesOnForever | scripts/build_service_bundle.py:23-36 | there is no endless run, whatever the order and the import cycles |
| Bundler.Bundle | scripts/build_service_bundle.py:20-36 | the loop ends, `visited` is the least set with the entrypoints closed under imports and initialisers, and the copies are its files below the root |
| Bundler.CopyPackageInitializers | scripts/build_service_bundle.py:88-105 | the final pass copies exactly the initialisers of visited files that are not there yet |
| Bundler.FinalPassCopiesNothing | scripts/build_service_bundle.py:48 | every initialiser of a visited file is among the copies already |
| Bundler.Run | scripts/build_service_bundle.py:17-48 | worklist and final pass together: the least set, and nothing left for the final pass |
| LlmClient.BestCandidate | src/estateflow/services/ai_client.py:273-274 | the earliest candidate of greatest rank |
| LlmClient.LessIsWeakOrder | src/estateflow/services/ai_client.py:373-379 | ranks compare lexicographically, as a weak order |
| LlmClient.LessIsLexicographic | src/estateflow/services/ai_client.py:373-379 | a rank is less exactly where it first differs in order of completeness, required fields, rental, signals, confidence |
| LlmClient.MarkedIsOnlySelected | src/estateflow/services/ai_client.py:512-527 | after marking one stage exactly that attempt is selected, and the audit trail is otherwise the same |
| LlmClient.BestCompletes | src/estateflow/services/ai_client.py:273-282 | once every stage is used up, returning the best usable response with its attempt marked completes the request |
| LlmClient.TryModels | src/estateflow/services/ai_client.py:199-272 | the loop: stages in order, audit as decided, early exits |
| LlmClient.CompleteJson | src/estateflow/services/ai_client.py:196-283 | the first accepted response, else the earliest usable one of greatest rank, else failure exactly when none was usable; audit and selection as specified |
| LlmClient.TriggerIsPreviousReason | src/estateflow/services/ai_client.py:201-203 | each later stage is triggered by the previous attempt's reason |
| LlmClient.CompletionIsDetermined | src/estateflow/services/ai_client.py:196-283 | the specification leaves one result for given models and outcomes |
| LlmClient.ReturnedWasAcceptedOrBest | src/estateflow/services/ai_client.py:224-282 | a returned response was accepted at the last stage, or is the best after all stages were used up |
| LlmClient.TriedUntilDone | src/estateflow/services/ai_client.py:199-272 | the models tried are those up to the first outcome that is neither an answer to retry nor an error that may pass |
| LlmClient.ResultIff | src/estateflow/services/ai_client.py:234-283 | the request fails exactly when no tried model gave a returnable answer, and raises exactly for a foreign error |
| LlmClient.AuditSays | src/estateflow/services/ai_client.py:208-271 | the audit entry of each tried model, from its outcome |
| LlmClient.SelectionSays | src/estateflow/services/ai_client.py:216-282 | on return exactly the returned response's attempt is selected, with the right reason; on failure none |
| LlmDecisions.MeaningfulIff | src/estateflow/services/ai_client.py:502-509 | a value counts unless it is missing, a text of white space, or an empty collection |
| LlmDecisions.MissingAreMissing | src/estateflow/services/ai_client.py:364-371 | the missing fields are exactly the required ones without such a value |
| LlmDecisions.ValidIff | src/estateflow/services/ai_client.py:470-499 | which responses are schema-valid, and the reason for each that is not |
| LlmDecisions.InvalidIsDropped | src/estateflow/services/ai_client.py:347-355 | an invalid response is tried again and never returned |
| LlmDecisions.EndsLoopIff | src/estateflow/services/ai_client.py:382-455 | an answer ends the loop exactly when it contradicts itself, is no rental, is implausible, or is complete with two signals and confident or judged against required fields |
| LlmDecisions.ReasonIff | src/estateflow/services/ai_client.py:382-455 | each decision reason with its own exact condition |
| LlmDecisions.StatusIff | src/estateflow/services/ai_client.py:380-455 | each status with its condition |
| LlmDecisions.RankMeans | src/estateflow/services/ai_client.py:359-379 | what each of the five components of the rank counts |
| LlmDecisions.ConfidenceDecides | src/estateflow/services/ai_client.py:325-339 | without the listing policy the confidence alone decides |
| AiWorker.AiExtractionWorker.PublishPostAi | src/estateflow/services/ai_worker.py:482-534 | a record without a listing is not published; any other enters the queue once or the call raises |
| AiWorker.AiExtractionWorker.KeepExtracted | src/estateflow/services/ai_worker.py:178-342 | the worker's cascade from extracted content to stored and published record, every raise included |
| AiWorker.AiExtractionWorker.UseAnswer | src/estateflow/services/ai_worker.py:172-417 | what follows each completion of the client; a runtime error from outside the client is stored as a failed record, any other leaves the worker |
| AiWorker.AiExtractionWorker.ExtractRecord | src/estateflow/services/ai_worker.py:117-417 | the handled block of a delivery, with the completion the client specification allows |
| AiWorker.AiExtractionWorker.Process | src/estateflow/services/ai_worker.py:99-417 | one delivery: final, republishing, or extracting |
| AiWorker.DeliveryTouchesOnly | src/estateflow/services/ai_worker.py:99-417 | a delivery changes only its own record and enqueues at most one message, for its own key |
| AiWorker.StoredRecordsCarryListing | src/estateflow/services/ai_worker.py:105-115 | every stored succeeded or manual-review record carries a listing, so republishing publishes |
| AiWorker.RentalIff | src/estateflow/services/ai_worker.py:183-204 | which answers go on to extraction, and the reason for each that does not |
| AiWorker.QualityIff | src/estateflow/services/ai_worker.py:257-293 | each verdict on a listing with its own exact condition |
| AiWorker.DeliveryStores | src/estateflow/services/ai_worker.py:99-342 | a delivery stores and publishes only a listing that its answer earned or that was stored before |
| AiWorker.EverythingIsEarned | src/estateflow/services/ai_worker.py:257-341 | over every redelivery a succeeded record is complete, confident and substantial, one under review names what it lacks, and every message carries such a listing with a reason exactly when it needs review |
| AiWorker.WorkingDelivery | src/estateflow/services/ai_worker.py:172-342 | when everything works, the record is failed exactly for no rental or under the 0.40 and 0.60 conditions, and else stored, published and returned |
| AiWorker.FailuresAreStored | src/estateflow/services/ai_worker.py:343-417 | what is stored for each failure before or in asking the models, and that nothing is published |
| AiWorker.FailedPublish | src/estateflow/services/ai_worker.py:304-341 | a publish that raises leaves an unpublished record, failed if the error is handled |
| AiWorker.FailedTags | src/estateflow/services/ai_worker.py:226-232 | a tag service that raises leaves nothing published, and a failed record if the error is handled |
| AiWorker.PublishedIff | src/estateflow/services/ai_worker.py:496-534 | counting a key's messages at most once means that no two places of the queue are its own |
| AiWorker.RepublishesOnly | src/estateflow/services/ai_worker.py:105-115 | an unpublished record is published without asking a model, and stays when publishing raises |
| AiWorker.PublishedIsFinal | src/estateflow/services/ai_worker.py:102-115 | after `post_ai_published` is stored no later delivery asks a model, publishes or stores |
| AiWorker.SealedUnlessNotifierRaises | src/estateflow/services/ai_worker.py:304-341 | a publishing delivery leaves the published mark exactly when it republished or no notification raised a handled error |
| AiWorker.PublishedAtMostOnce | src/estateflow/services/ai_worker.py:295-342 | under any redelivery a key is published at most once |
| AiWorker.RaisingNotifierRepublishes | src/estateflow/services/ai_worker.py:304-316 | with a notification that raises after publishing, delivering twice publishes twice |
| AiWorker.RepublishedRental | src/estateflow/services/ai_worker.py:304-316 | a rental answer, and such a notifier, for which two deliveries publish two messages |
| AiWorker.ShippedNotifiersPublishOnce | src/estateflow/services/ops_notifications.py:161-251 | with the program's notifiers, whatever sending does, a key is published at most once under any redelivery |
| AiWorker.OnlyCancellationRaises | src/estateflow/services/ops_notifications.py:229-238 | a notification raises exactly when sending is cancelled |
| AiWorker.NonRentalIsFailed | src/estateflow/services/ai_worker.py:188-223 | if the client stopped on a non-rental or contradictory answer, the record is failed with that reason and nothing is published |
| AiWorker.AcceptedThoughMissing | src/estateflow/services/ai_client.py:402-421 | with required fields missing the client accepts a rental only for lack of listing signals |
| AiWorker.BestIsIncomplete | src/estateflow/services/ai_client.py:373-379 | if the best response lacks required fields, so does every schema-valid one |
| AiWorker.MissingFieldsWereUnavoidable | src/estateflow/services/ai_worker.py:276-280 | a stored record reports missing required fields only if the accepted response had too few signals or no schema-valid response had them all |
| TelegramText.NormalizedIsNormal | src/estateflow/services/content_automation.py:454 | no line break but the newline, no white space at line ends or text ends |
| TelegramText.SafeTextIsNormal | src/estateflow/services/content_automation.py:453-457 | the result is in that form and at most 4096 characters long, cut or not |
| TelegramText.SafeTextIsIdempotent | src/estateflow/services/content_automation.py:135 | applying the normaliser again changes nothing, for every string |
| TelegramText.NormalTextIsKept | src/estateflow/services/content_automation.py:453-457 | a text in that form that fits is left alone |
| ContentAutomation.ContentAutomationService.Create | src/estateflow/services/content_automation.py:277-327 | the store, the publisher calls and the result of one attempt |
| ContentAutomation.ContentAutomationService.GenerateDaily | src/estateflow/services/content_automation.py:219-232 | store, calls and returned posts of a daily run |
| ContentAutomation.ContentAutomationService.PreviewDaily | src/estateflow/services/content_automation.py:234-265 | the previewed keys and texts |
| ContentAutomation.GenerateIsThreeSteps | src/estateflow/services/content_automation.py:222-231 | a daily run is three attempts, so runs of attempts include it |
| ContentAutomation.DailyCap | src/estateflow/services/content_automation.py:185-191 | no day has more counted posts than the limit, in any run |
| ContentAutomation.SentAtMostOnce | src/estateflow/services/content_automation.py:286-290 | after a successful call for a key there is no further call |
| ContentAutomation.AttemptsAreCalls | src/estateflow/services/content_automation.py:296-325 | stored attempts equal the publisher calls for the key, and the stored text is the last one sent |
| ContentAutomation.BackoffIsKept | src/estateflow/services/content_automation.py:289-310 | after a retryable failure the next call comes no earlier than the backoff |
| ContentAutomation.IdentityIsKept | src/estateflow/services/content_automation.py:304-325 | post id and creation time never change |
| ContentAutomation.StoredTextIsSent | src/estateflow/services/content_automation.py:135 | the stored text is the text the Telegram publisher sends after normalising again, and fits one message |
| ContentAutomation.StatusIsLastOutcome | src/estateflow/services/content_automation.py:297-326 | in every run the status is published, dry run, drafted or failed exactly as the last call for the key came out, with its time for the first two, and creation is dated at the first call |
| ContentAutomation.DailySends | src/estateflow/services/content_automation.py:185-191 | the publisher never accepts more posts of one day than the limit |
| ContentAutomation.CalledIff | src/estateflow/services/content_automation.py:284-301 | the publisher is called exactly when there is a text, no call for the key was accepted, the backoff is over and the day has room |
| ContentAutomation.CallKeepsIdentity | src/estateflow/services/content_automation.py:303-325 | a first call stores the fresh id, a later one keeps it and counts one more attempt |
| ContentAutomation.ReturnedPost | src/estateflow/services/content_automation.py:286-327 | the post returned with and without a call |
| ContentPreview.RunIsPreviewed | src/estateflow/services/content_automation.py:234-265 | without a due retry the run sends the previewed posts in order |
| ContentPreview.RetryIsSent | src/estateflow/services/content_automation.py:286-300 | a due retry that is met is sent, for a key that was stored before |
| ContentPreview.PreviewShowsNewOnly | src/estateflow/services/content_automation.py:249-251 | no stored key is previewed |
| ContentPreview.PreviewPredictsRun | src/estateflow/services/content_automation.py:219-265 | with a publisher that refuses nothing, preview and run agree in keys, order and text exactly when no due retry is met, for every store and limit |
| ContentPreview.RetryIsMissed | src/estateflow/services/content_automation.py:249-251 | a reachable store in which the run publishes a due retry that the preview does not show |
| TagKeys.JoinedHasTheWords | src/estateflow/services/audience_tags.py:405 | collapsing and stripping keep the words and leave single inner underscores |
| TagKeys.CleaningDistributes | src/estateflow/services/audience_tags.py:403-404 | cleaning works character by character |
| TagKeys.CleanedChar | src/estateflow/services/audience_tags.py:403-404 | hyphens and spaces become underscores, key characters stay, anything else goes |
| TagKeys.NormalizeIs | src/estateflow/services/audience_tags.py:402-409 | the words of the cleaned text joined by underscores, an alias replaced, accepted exactly from a letter on with 2 to 64 characters |
| TagKeys.KeysAreNormal | src/estateflow/services/audience_tags.py:402-409 | an accepted key has no doubled or edge underscores, is no alias, and has the words of the text unless an alias was replaced |
| TagKeys.NormalizeIsIdempotent | src/estateflow/services/audience_tags.py:402-409 | normalising an accepted key gives it back, through the alias map too |
| TagKeys.ResultsAreTheNormalForms | src/estateflow/services/audience_tags.py:24-28 | the accepted results are exactly the normal forms |
| AudienceTags.InMemoryAudienceTagRepository.ListApproved | src/estateflow/services/audience_tags.py:121-124 | exactly the approved keys, most used first, then by key |
| AudienceTags.InMemoryAudienceTagRepository.UpsertPending | src/estateflow/services/audience_tags.py:134-146 | an existing tag is returned as it is, a new one is pending and unused |
| AudienceTags.InMemoryAudienceTagRepository.IncrementUsage | src/estateflow/services/audience_tags.py:148-157 | one more use of one tag |
| AudienceTags.InMemoryAudienceTagRepository.SetStatus | src/estateflow/services/audience_tags.py:159-175 | a new status, and a new name unless it is missing or empty |
| AudienceTags.InMemoryAudienceTagRepository.RecordOnce | src/estateflow/services/audience_tags.py:177-186 | the first event under a key is kept and returned ever after |
| AudienceTags.InMemoryAudienceTagRepository.RemapReferences | src/estateflow/services/audience_tags.py:188-211 | every reference to the source becomes one to the target, and the counts of what changed |
| AudienceTags.RemapSets | src/estateflow/services/audience_tags.py:196-202 | the loop over one dictionary of sets |
| AudienceTags.RemapFilters | src/estateflow/services/audience_tags.py:203-207 | the loop over the filters |
| AudienceTags.RemappedMeans | src/estateflow/services/audience_tags.py:195-207 | which entries and filters the two counts of a remap count |
| AudienceTags.BestIsUnique | src/estateflow/services/audience_tags.py:390-399 | at most one approved tag is the best match |
| AudienceTagService.AudienceTagService.FuzzyMatch | src/estateflow/services/audience_tags.py:390-399 | the most similar approved tag that reaches the threshold, ties by usage and key |
| AudienceTagService.AudienceTagService.ResolveTag | src/estateflow/services/audience_tags.py:261-292 | store and result of resolving one text |
| AudienceTagService.AudienceTagService.ResolveTags | src/estateflow/services/audience_tags.py:233-242 | the distinct keys are resolved in first-seen order; an invalid value stops the call, what came before stays |
| AudienceTagService.AudienceTagService.ResolveForCanonical | src/estateflow/services/audience_tags.py:244-259 | distinct approved keys and a note on every other outcome |
| AudienceTagService.AudienceTagService.Approve | src/estateflow/services/audience_tags.py:294-322 | store and result of an approval; the key is spent even when a precondition fails |
| AudienceTagService.AudienceTagService.Reject | src/estateflow/services/audience_tags.py:324-349 | store and result of a rejection |
| AudienceTagService.AudienceTagService.Merge | src/estateflow/services/audience_tags.py:351-388 | store and result of a merge |
| TagRuns.MergeChanges | src/estateflow/services/audience_tags.py:374-388 | a merge that takes effect moves all references and rejects the source; any other changes no tag or reference |
| TagRuns.ResolveResult | src/estateflow/services/audience_tags.py:261-292 | a text is matched by its own tag unless rejected, else by the closest approved one; only a match counts as a use, and only an unknown key is created |
| TagRuns.ApproveResult | src/estateflow/services/audience_tags.py:294-322 | which error, which event is spent, and the tag as stored and returned |
| TagRuns.RejectResult | src/estateflow/services/audience_tags.py:324-349 | the same for a rejection |
| TagRuns.MergeResult | src/estateflow/services/audience_tags.py:351-388 | the same for a merge |
| TagRuns.MergeWrites | src/estateflow/services/audience_tags.py:383-388 | a merge rejects the source, counts one use of the target, and changes no other tag |
| TagRuns.RemapMovesReferences | src/estateflow/services/audience_tags.py:194-207 | after a remap nothing refers to the source, and only the target gains references |
| TagRuns.StepKeepsNoRejectedRefs | src/estateflow/services/audience_tags.py:324-349 | an operation keeps all references off rejected tags exactly when it does not reject a referenced tag |
| TagRuns.RejectedFamilyIsReferenced | src/estateflow/services/audience_tags.py:347-349 | a store and a rejection after which an announcement refers to a rejected tag |
| TagRuns.NoReferenceToRejected | src/estateflow/services/audience_tags.py:233-388 | hence so does every run of merges, approvals, resolves and rejections of unreferenced tags |
| TagRuns.ReferencesFollowMerges | src/estateflow/services/audience_tags.py:351-388 | final references are the initial ones, each taken through the merges that took effect, in order |
| TagRuns.SpentKeyChangesNothing | src/estateflow/services/audience_tags.py:177-186 | a spent key changes nothing at all, and whatever changes something spends its key |
| TagRuns.KeyActsOnce | src/estateflow/services/audience_tags.py:294-388 | one idempotency key acts at most once in a run, whatever requests carry it |
| TagRuns.FirstSeenIsDistinct | src/estateflow/services/audience_tags.py:236-241 | the resolved keys are distinct and are all normalised keys of the values |
| TagRuns.FirstSeenIsOrdered | src/estateflow/services/audience_tags.py:236-241 | keys come in the order of their first occurrence |
| TagRuns.OneResultPerKey | src/estateflow/services/audience_tags.py:233-242 | one result per key, in the same order |
| TagRuns.UsageGrowsByMatches | src/estateflow/services/audience_tags.py:261-292 | total usage grows by exactly the number of matched results |
| TagRuns.CanonicalTagsAreApproved | src/estateflow/services/audience_tags.py:244-259 | the tags handed to a listing are approved, each once |
| TagRuns.CanonicalSays | src/estateflow/services/audience_tags.py:244-259 | every approved key is handed on, and every pending, rejected or replaced one noted |
| TagRuns.ResolveManyFails | src/estateflow/services/audience_tags.py:233-242 | resolving many is refused exactly when some value is no key |
| TagRuns.PrefixIsValid | src/estateflow/services/audience_tags.py:236-238 | the values resolved before a refusal are those before the first that is no key |
| Analytics.InMemoryAnalyticsEventRepository.Record | src/estateflow/services/analytics.py:205-209 | the log gains the event exactly when its key is new |
| Analytics.InMemoryAnalyticsEventRepository.ListEvents | src/estateflow/services/analytics.py:211-216 | the events of the period, in log order |
| Analytics.ReplayChangesNothing | src/estateflow/services/analytics.py:205-209 | recording recorded keys again, in any order and number, changes nothing |
| Analytics.FirstRecordStays | src/estateflow/services/analytics.py:205-209 | recorded events stay, and every key offered is recorded |
| Analytics.LastRegistrationCounts | src/estateflow/services/analytics.py:462-468 | the registration that counts is the user's last one in the log within the period |
| Analytics.CohortsMean | src/estateflow/services/analytics.py:491-519 | who is invited, converted, notified and engaged |
| Analytics.ActiveMeans | src/estateflow/services/analytics.py:436-447 | a registered user is active by a search or saved filter from the registration on |
| Analytics.RetainedMeans | src/estateflow/services/analytics.py:469-480 | a registered user is retained by another event seven days later within the width |
| Analytics.RateIsQuotient | src/estateflow/services/analytics.py:530-536 | the rate is numerator over denominator, and missing for an empty cohort |
| Analytics.MidnightIsLocal | src/estateflow/services/analytics.py:545-554 | a date starts at zero hours of that day on the zone's own clock |
| Analytics.D7Retention | src/estateflow/services/analytics.py:455-488 | the loops count the users with a return in their own seventh-day window |
| Analytics.ReturnsIn | src/estateflow/services/analytics.py:473-480 | the inner search with its early exit |
| Analytics.RatiosAreProper | src/estateflow/services/analytics.py:430-527 | every numerator is at most its denominator |
| Analytics.WindowOfWindow | src/estateflow/services/analytics.py:274-276 | the period cut from a wider fetch is the period of the log |
| Analytics.FetchIsEnough | src/estateflow/services/analytics.py:269-273 | the retention from the bounded fetch is that of the whole log |
| Analytics.ShorterFetchMisses | src/estateflow/services/analytics.py:471-480 | a user for whom any shorter fetch gives another retention |
| Analytics.FetchIsEnoughIff | src/estateflow/services/analytics.py:269 | a fetch gives the retention of every log exactly when it reaches the last microsecond a return can fall in |
| Analytics.BetaSnapshot | src/estateflow/services/analytics.py:254-305 | refuses exactly the bad arguments; every ratio and bucket is that of the whole log, and the technical snapshot, if any, is that of the period |
| Analytics.EventBuckets | src/estateflow/services/analytics.py:360-377 | the entries of the counts, strictly sorted by start and name |
| Analytics.SortedItems | src/estateflow/services/analytics.py:374-377 | every entry of the counts once, in order |
| Analytics.RankIsAlphabetical | src/estateflow/services/analytics.py:374-377 | buckets of one start are sorted by the text of the event name |
| Analytics.BucketsConserveEvents | src/estateflow/services/analytics.py:367-377 | each bucket counts its own events, and all together the events of the period |
| Analytics.BucketHolds | src/estateflow/services/analytics.py:557-564 | a bucket starts at a full hour or day and holds the times less than its width after |
| Analytics.DailyIsSumOfHourly | src/estateflow/services/analytics.py:557-564 | each daily count is the sum of the hourly counts of its day and name |
| TechnicalMetrics.TechnicalSnapshot | src/estateflow/services/analytics.py:380-427 | every total of the snapshot |
| TechnicalMetrics.SnapshotAddsUp | src/estateflow/services/analytics.py:394-427 | in one snapshot, health counts add up to the listeners that reported, decision counts and source counts each to the parser events, and sources to each decision; duplicates are among the decisions |
| TechnicalMetrics.DuplicateRateIsProper | src/estateflow/services/analytics.py:414 | the duplicate rate is between 0 and 1 |
| TechnicalMetrics.AverageDelayIsWithin | src/estateflow/services/analytics.py:408 | the average delay lies between any bounds of the delays |
| TechnicalMetrics.DelaysAdd | src/estateflow/services/analytics.py:381-408 | the sum of delays takes each delay once and nothing else |
| TechnicalMetrics.ParserCounts | src/estateflow/services/analytics.py:397-405 | the counts per decision and per source |
| TechnicalMetrics.SourceIs | src/estateflow/services/analytics.py:401-403 | which source and decision an event counts for, empty ids being none |
| TechnicalMetrics.DuplicateIff | src/estateflow/services/analytics.py:383-389 | the two decisions that count as duplicates |
| TechnicalMetrics.DuringFilters | src/estateflow/services/analytics.py:231-241 | the period of a log, event by event |
| TechnicalMetrics.DecisionsAddUp | src/estateflow/services/analytics.py:400-402 | a decision's count is the number of its events, and the counts add up to all parser events |
| TechnicalMetrics.SourcesAddUp | src/estateflow/services/analytics.py:403-405 | per-source counts are of that source's events and add up to the per-decision count |
| TechnicalMetrics.RowsAddUp | src/estateflow/services/analytics.py:403-405 | all per-source counts together are all parser events |
| TechnicalMetrics.SortedIsAscending | src/estateflow/services/analytics.py:391 | the sort by time is an ascending rearrangement |
| TechnicalMetrics.LatestIsNewest | src/estateflow/services/analytics.py:390-393 | going through the sorted events leaves each listener at its newest report |
| TechnicalMetrics.NewestMeans | src/estateflow/services/analytics.py:390-393 | the newest report has the greatest time, the later in the list among equals |
| TechnicalMetrics.HealthCounts | src/estateflow/services/analytics.py:394-396 | each status with the number of listeners at it |
| TechnicalMetrics.HealthAddsUp | src/estateflow/services/analytics.py:394-396 | health counts add up to the distinct listeners |
| FeatureFlags.FeatureFlagStore.Set | src/estateflow/repositories/release_controls.py:50-91 | rows, audit and result of one write, or its refusal |
| FeatureFlags.AppliedIff | src/estateflow/repositories/release_controls.py:63-72 | a write of a known flag is applied exactly when it expects no version or the current one, which is 1 before the flag has a row |
| FeatureFlags.AppliedWrites | src/estateflow/repositories/release_controls.py:73-89 | an applied write stores the value, next version and time, records the same, and changes no other flag |
| FeatureFlags.SetFlagKeepsChain | src/estateflow/repositories/release_controls.py:73-89 | a write extends its flag's audit chain and keeps the others |
| FeatureFlags.StepIsAtomic | src/estateflow/repositories/release_controls.py:60-91 | a step of a transaction changes the store only by committing one whole write |
| FeatureFlags.AuditIsUnbroken | src/estateflow/repositories/release_controls.py:50-120 | in every concurrent run each flag's audit is an unbroken chain from its seed to its row |
| FeatureFlags.OneWriterPerVersion | src/estateflow/repositories/release_controls.py:71-72 | of the writers expecting one version of one flag at most one succeeds |
| FeatureFlags.OneWriterWins | src/estateflow/repositories/release_controls.py:63-91 | once a writer expecting the current version has finished, exactly one write was applied to that version |
| FeatureFlags.NeverStuck | src/estateflow/repositories/release_controls.py:60-91 | while a writer is unfinished, some writer can run its next statement |
| FeatureFlags.StatementsProgress | src/estateflow/repositories/release_controls.py:60-91 | every statement takes its transaction further, never to a rollback |
| FeatureFlags.RefusalChangesNothing | src/estateflow/repositories/release_controls.py:69-72 | a refused or rolled-back write leaves rows and audit unchanged |
| Callbacks.Base36Encode | src/estateflow/bot/callbacks.py:120-131 | the digit loop yields the base-36 digits, most significant first |
| Callbacks.DecodeUndoesEncode | src/estateflow/bot/callbacks.py:120-135 | decoding an encoded number gives it back, for every number |
| Callbacks.SplitUndoesJoin | src/estateflow/bot/callbacks.py:57-68 | the bounded split gives the parts back when only the last may contain a colon |
| Callbacks.PackedText | src/estateflow/bot/callbacks.py:53-57 | the packed text field by field, refused only for negative numbers |
| Callbacks.Base36Places | src/estateflow/bot/callbacks.py:120-131 | digits are 0 to 9 and a to z, and each place counts 36 times the next |
| Callbacks.DigitMeans | src/estateflow/bot/callbacks.py:134-135 | which characters are digits, and their values |
| Callbacks.SignIsRead | src/estateflow/bot/callbacks.py:134-135 | a sign in front of a number is read as such |
| Callbacks.RefusedIff | src/estateflow/bot/callbacks.py:76-81 | the owner, action and expiry errors, each with its exact condition |
| Callbacks.MalformedIff | src/estateflow/bot/callbacks.py:68-75 | which texts are refused before anything else |
| Callbacks.RoundTrip | src/estateflow/bot/callbacks.py:53-88 | unpacking a packed payload gives it back exactly when it is allowed, fresh and the expected owner's |
| Callbacks.PackIsInjective | src/estateflow/bot/callbacks.py:53-57 | different allowed payloads pack differently |
| Callbacks.UnpackedIsValid | src/estateflow/bot/callbacks.py:76-81 | whatever unpacks is allowed, fresh and the expected owner's |

## Left out

- SearchFilter.WhereMeansMatches: is stated for rows as the table's constraints allow them, and where `lower` and `casefold` agree on the names compared; `WhereMeansMatchesIff`, `OneFoldingIff` and `GivenDistrictIff` say exactly when it holds, `WhereSelects` what holds without conditions.
- LlmClient.CompletionIsDetermined: is about the client's own steps; its attempt observers are not part of the model.
- Callbacks.DecodeUndoesEncode: is about what the encoder writes; decoding digits outside ASCII is not modelled.
- AiWorker.PublishedAtMostOnce: needs that no notification raises an error the worker handles, which `ShippedNotifiersPublishOnce` shows of the program's notifiers, and that saving never fails; one notification outcome covers the whole delivery.
- AiWorker.ShippedNotifiersPublishOnce: whether the notifier is silent for now is given from outside; its rate limit and cooldown are not modelled.
- AudienceTagService.AudienceTagService.ResolveTags: assumes that case folding leaves strings of key characters alone.
- Bundler.Bundle: does not model a relative import that climbs to the root of the file system and names nothing, where the script raises; extra files are not modelled.
- FeatureFlags.FeatureFlagStore.Set: seeding by `get_snapshot` is not modelled; the audit order is that of the commits, not of the recorded times by which `audit_log` sorts.
- Identifiers, display fields, message ids, actors, notes and reasons that no decision reads are not part of the records.
- The constructors that load a list of events, and the technical event repository, which works as the product one does; the snapshot takes its events as a list.
- Search notes and the joined media of a search row; the searches through SQLAlchemy, which treat missing prices differently.
- How texts are rendered, prompts built, imports parsed, similarity computed, responses transported and listings normalised: these are arbitrary functions or outcomes.
- Floating-point rounding of confidences, rates and ratios.
- HTTP routes, bot screens, queues, storage, notification delivery, deduplication and source parsing.
