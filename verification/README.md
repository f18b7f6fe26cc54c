# Governance policy framework addon: verified model

The addon keeps policies in step between a hub cluster and a managed cluster. This project models its controllers
and proves what they keep over every step, every pass and every run. Integers are unbounded except where the
program's 64-bit nanosecond counts matter, and those bounds are written out. API calls are atomic steps whose
success or failure is an input.

| modules | part of the program |
|---|---|
| `Text`, `EventCodec` | strings; event names, event reasons, compliance prefixes and their readers |
| `History`, `HistoryLaws`, `HistoryStability`, `HistoryLoss` | the merged compliance history of one template, and what the expiry of events does to it |
| `StatusSync`, `StatusLaws`, `StatusLoss` | status-sync: gathering events, merging details in place, overall compliance |
| `Delivery` | an event from template-sync to the first line of the status, and the check that silences repeats |
| `Replication`, `ReplicationLaws`, `ReplicationRecovery` | spec-sync and status-sync on one policy, interleaved one API call at a time |
| `TemplateObjects` | JSON specs, the defaults of each kind, equivalence, the remediation override |
| `TemplateSync`, `TemplateSyncLaws`, `TemplatePassLaws`, `TemplateOutcomes`, `TemplateTwins` | the template-sync reconcile: one template, whole passes, what is left and which errors survive |
| `Gatekeeper` | constraint reports and the cache of messages sent but not yet observed |
| `Supervisor` | starting and stopping the Gatekeeper sync manager |
| `Uninstall` | deleting all policies, with template-sync giving up finalizers in between |

How the pieces fit: loops and state-changing methods are proved equal to specification functions (`Merge`,
`AllDetails`, `Reconciled`, `SyncTo`, `Turn`, `Turns`, `StatusFinish`), and the laws are about those functions, or
about state machines built from them.

## Where the program does not do what one might expect

The model follows the code. In these places a plausible property fails, with a lemma that shows it, and where there
is an exact condition it is proved.

- Merging a history once is not enough: a stored entry can bridge two source entries and then disappear
  (`HistoryStability.OnePassIsNotEnough`). It is enough if and only if there is no such bridge; two passes always do
  for stored entries with recoverable times, three for any.
- Status-sync drops a request when the specs differ and counts on the spec-sync update to wake it. If the hub spec
  is put back first, events that arrived meanwhile stay out of the status until something else happens
  (`ReplicationLaws.RevertLosesEvents`; exactly when: `ReplicationRecovery.RevertHealsIff`). Agreement of hub and managed
  cluster is not affected.
- Spec-sync returns the error of a failed update only if the managed policy is gone. After any other failure nothing
  is queued, and the controllers can rest with the new spec never copied (`ReplicationLaws.DroppedUpdateLosesSpec`,
  with the exact conditions in `ReplicationLaws.DropForgetsIff` and `ReplicationRecovery.DropHealsIff`).
- Deleted events wake nobody. An event that was hidden behind an expired one then belongs in the history, and the
  status is out of date at rest (`HistoryLoss.ExpiryUncovers`, `ReplicationRecovery.ExpiryShowsInSomeRun`; exactly when:
  `HistoryLoss.LossKeepsIffNoBridge`, `ReplicationRecovery.ExpiryAtRest`).
- A report is held back when the newest message contains it anywhere, so a violation silences a compliant report of
  the same text (`Delivery.ViolationSilencesCompliance`, `Delivery.SilencedIff`).
- Reports of a dependency conflict or a missing name are sent under `template-<index>`, where status-sync does not
  look for a template that decodes (`Delivery.IndexReportIsNeverSeen`, `Delivery.IndexReportArrivesIff`).
- When reporting a pending template fails, the wrong error variable is kept and earlier errors are lost
  (`TemplateOutcomes.StepErrors`, `TemplateOutcomes.PassErrorsIff`, `TemplateOutcomes.LostError`).
- An object of another policy is deleted when a dependency is unmet or the template has a hub error, because ownership
  is looked at later (`TemplateOutcomes.ClashOutcome`).
- Objects can be left behind without the finalizer, for instance a ConstraintTemplate that is created but not reported
  created (`TemplateOutcomes.NotReadyLeavesNoTrace`, `TemplateOutcomes.FinalizerIsExact`).
- When the parent context closes and the supervisor notices the end of its watcher first, it lists on a closed context
  for ever and does not return (`Supervisor.CanReturnIffWatching`, `Supervisor.NeverReturns`).
- The duplicate-name check stops at an unreadable template and takes a repeated empty name for no repetition
  (`TemplatePassLaws.DupNameIsFirstRepeat`). Two templates for one object that get through this way can update it for
  ever (`TemplateTwins.TwinsNeverSettle`, `TemplateTwins.TwinsSettleIff`). Repeated names are handled before deletion, so they hold up a deleted
  policy for good; so does a nameless cluster-scoped template, which a comment in `finalizerCleanup` says is skipped
  while the code asks for its deletion (`Uninstall.DeletedPolicyGoesIff`).
- Template-sync accepts an owner reference of any kind, status-sync only of kind Policy
  (`TemplatePassLaws.OtherKindsDivideThem`, `TemplatePassLaws.OwnersAgreeIff`).

## Model

| member | source | states |
|---|---|---|
| `EventCodec.EventNameRoundTrip` | controllers/statussync/policy_status_sync.go:639-648 | For every policy name, dots included, and every 64-bit nanosecond count, negatives and the minimum included, reading the name that `SendEvent` builds (controllers/utils/events.go:42) gives back the count |
| `EventCodec.UnixNano` | controllers/statussync/policy_status_sync.go:318-322 | The count printed in a synthesized name is a 64-bit integer, and the exact time whenever that fits |
| `EventCodec.ParseTimestamp` | controllers/statussync/policy_status_sync.go:639-648 | Every time read from a name fits 64 bits |
| `EventCodec.ReadableNames` | controllers/statussync/policy_status_sync.go:639-648 | A name is read as the signed value of its last dotted part if that is a sign, or none, and hexadecimal digits within 64 bits, and is refused in every other case |
| `EventCodec.MatchQualifiedMeaning` | controllers/statussync/policy_status_sync.go:256-263 | The backtracking match of the qualified form equals a direct description: longest namespace run, spaces, slash, rest of the line |
| `EventCodec.ReasonRoundTrip` | controllers/statussync/policy_status_sync.go:256-263 | The regular expression recovers the template name printed by `EventReason` (controllers/utils/events.go:90-96) if and only if `SurvivesReason` holds: no newline, and without a namespace no leading space and nothing that reads as a namespace before a slash |
| `EventCodec.DistinctNamesDistinctBuckets` | controllers/statussync/policy_status_sync.go:256-273 | Two different surviving template names never share a history bucket |
| `EventCodec.ComplianceRoundTrip` | controllers/statussync/policy_status_sync.go:650-664 | The compliance given to `SendEvent` is the one read from the recorded message, and the recorded message is the sent one without trailing space |
| `History.SortIsStable` | controllers/statussync/policy_status_sync.go:483-485 | The sort orders newest first, is a permutation, and keeps the order of entries with equal times |
| `History.StableSortUnique` | controllers/statussync/policy_status_sync.go:483-485 | Two ordered sequences that agree at every time are equal, so any stable sort gives this result |
| `History.SortAfterSort` | controllers/statussync/policy_status_sync.go:458-485 | Sorting part of the events beforehand does not change the sorted whole |
| `History.SortByName` | controllers/statussync/policy_status_sync.go:458-485 | Dropping entries by name and sorting commute |
| `HistoryLaws.NextTimeline` | controllers/statussync/policy_status_sync.go:458-517 | The sorted events of the next pass are those of this pass restricted to the sources and the entries kept, times included, although the stored times were truncated |
| `HistoryLaws.MergeConverges` | controllers/statussync/policy_status_sync.go:433-525 | For any sources and any stored entries with a readable name or whole-second time, the third merge equals the second |
| `HistoryLaws.MergeConvergesAlways` | controllers/statussync/policy_status_sync.go:433-525 | For any stored entries at all, the fourth merge equals the third |
| `HistoryStability.MergeIdempotentIffNoBridge` | controllers/statussync/policy_status_sync.go:487-509 | The second merge equals the first if and only if no source entry is dropped through a stored entry that is itself dropped while differing from the last survivor |
| `HistoryStability.OnePassIsNotEnough` | controllers/statussync/policy_status_sync.go:487-509 | One message at 10, 6 and 2 microseconds, the middle one only stored: one entry after one pass, two after the next |
| `HistoryStability.NoExtrasNoBridge` | controllers/statussync/policy_status_sync.go:458-472 | With nothing stored that the sources lack there is no bridge, so one pass is enough |
| `HistoryStability.FixedWithoutSources` | controllers/statussync/policy_status_sync.go:433-525 | A history comes back unchanged from a merge without sources if and only if it is settled: short, distinct names, recoverable times, ordered, neighbours not similar |
| `HistoryStability.HistoryOutlivesSources` | controllers/statussync/policy_status_sync.go:458-517 | A merged history survives the loss of all its sources if and only if its names are distinct |
| `HistoryStability.DistinctSourcesDistinctHistory` | controllers/statussync/policy_status_sync.go:458-472 | Sources with distinct names give a history with distinct names |
| `HistoryStability.TimelineIsComplete` | controllers/statussync/policy_status_sync.go:458-480 | The events compared are exactly the sources plus the first stored entry of each other name, with recovered times |
| `HistoryStability.EveryEventAccountedFor` | controllers/statussync/policy_status_sync.go:487-509 | Each event is kept at a known position, or ten kept entries precede it, or a kept newer entry reaches it through neighbours of the same message less than 5 microseconds apart |
| `HistoryStability.HistoryIsOrdered` | controllers/statussync/policy_status_sync.go:482-517 | At most ten entries, the newest event first, times never increasing after truncation, empty only when there are no events |
| `HistoryLoss.AlikeKeepSame` | controllers/statussync/policy_status_sync.go:487-509 | Two sorted sequences that differ only in how often an entry is repeated keep the same entries |
| `HistoryLoss.LossKeepsIffNoBridge` | controllers/statussync/policy_status_sync.go:433-525 | A merged history outlives the expiry of some of its events if and only if no entry still reported was dropped for resembling one that has expired or is only stored and was itself dropped, while it differs from the last survivor; the expired events share time and name with no different entry |
| `HistoryLoss.LossWithoutStoreIff` | controllers/statussync/policy_status_sync.go:404-419 | Without a stored history the same, and no entry of the history may have expired |
| `HistoryLoss.ExpiryUncovers` | controllers/statussync/policy_status_sync.go:487-509 | One message at 10, 6 and 2 microseconds, all events: when the middle one expires a settled history of one entry becomes one of two |
| `HistoryLoss.TiesReorder` | controllers/statussync/policy_status_sync.go:483-485 | Two different events of one time change places when the first expires, with no bridge: the condition on times is needed |
| `StatusSync.GetEventsInCluster` | controllers/statussync/policy_status_sync.go:244-278 | Fails exactly when the events cannot be listed; otherwise the map of slices it grows holds, for every template name, exactly the matching events in listing order |
| `StatusSync.GetEventsInTemplate` | controllers/statussync/policy_status_sync.go:286-326 | The entries are those of the template status that parse, in order, under synthesized names |
| `StatusSync.AddStored` | controllers/statussync/policy_status_sync.go:457-472 | The loop over stored entries appends exactly those with a name not yet seen |
| `StatusSync.DropSimilar` | controllers/statussync/policy_status_sync.go:487-509 | The loop keeps the first ten entries that are not too similar to their sorted neighbour |
| `StatusSync.MergeHistory` | controllers/statussync/policy_status_sync.go:457-517 | The loops together compute `Merge`, the function the history laws are about |
| `StatusSync.MergeDetails` | controllers/statussync/policy_status_sync.go:433-525 | The existing details object of that name is updated in place or a new one made; no other object changes |
| `StatusSync.MergeTemplate` | controllers/statussync/policy_status_sync.go:371-424 | One turn of the loop over templates yields the details of that template and changes no object of another name |
| `StatusSync.GetDetails` | controllers/statussync/policy_status_sync.go:357-427 | Fails exactly when the events cannot be listed or a template object cannot be read, otherwise returns the details of every template computed from the status as it was at the start |
| `StatusSync.CollectDetails` | controllers/statussync/policy_status_sync.go:371-424 | The loop over the templates: each object of the old status is used by one template only, so the order of updates does not show |
| `StatusLaws.OverallCompliance` | controllers/statussync/policy_status_sync.go:544-568 | The loop with its early exit computes: any violation decides, then pending, then unknown leaves the old state, else compliant |
| `StatusLaws.MergedDetailsConverge` | controllers/statussync/policy_status_sync.go:433-525 | History and compliance of one template settle after two passes (three for any stored times) |
| `StatusLaws.DetailsConverge` | controllers/statussync/policy_status_sync.go:357-427 | The details of all templates settle, foreign objects included |
| `StatusLaws.StatusConverges` | controllers/statussync/policy_status_sync.go:547-568 | With unchanged sources the whole status, overall compliance included, settles after two reconciles, or three from any stored status |
| `StatusLaws.SourcesAreNormal` | controllers/statussync/policy_status_sync.go:258-275 | Every event that is merged has a time that can be recovered once stored |
| `StatusLaws.ForeignObjectContributesNothing` | controllers/statussync/policy_status_sync.go:404-419 | If the object belongs to another policy, neither its history nor the stored history enters: the details are the merged cluster events alone |
| `StatusLoss.EventsForExpired` | controllers/statussync/policy_status_sync.go:254-275 | Deleting events by name takes exactly their entries out of every bucket |
| `StatusLoss.TemplateOutlivesExpiryIff` | controllers/statussync/policy_status_sync.go:357-427 | The details of a template, of a foreign object too, survive an expiry if and only if it does not show in them |
| `StatusLoss.StatusOutlivesExpiryIff` | controllers/statussync/policy_status_sync.go:357-427 | A status that is up to date, overall compliance included, is so after the expiry if and only if it shows in no template |
| `Delivery.SilencedIff` | controllers/templatesync/template_sync.go:1559-1561 | The newest entry silences a report if and only if its text begins with that of the report and the compliances agree or are non-compliant before compliant, or it quotes the whole message further on |
| `Delivery.SilencedByOwnIff` | controllers/templatesync/template_sync.go:1559-1561 | A silenced report is the newest entry's own, of its compliance, if and only if the entry begins with the sent message |
| `Delivery.ViolationSilencesCompliance` | controllers/templatesync/template_sync.go:1559-1561 | For every message, a newest violation with it silences the compliant report with it, and the status stays non-compliant |
| `Delivery.NewestWins` | controllers/statussync/policy_status_sync.go:483-495 | An entry later than all others is first in the merged history |
| `Delivery.SentEventIsDelivered` | controllers/utils/events.go:35-64 | An event sent later than all else known of its template becomes entry 0 of that history, with the sent message, and sets the compliance to the one sent, wherever the event listing puts it |
| `Delivery.DeliveredThenSilent` | controllers/templatesync/template_sync.go:1559-1561 | While it stays first, emitting it again sends nothing if and only if the message has no trailing space |
| `Delivery.EmittedThenSilent` | controllers/templatesync/template_sync.go:1546-1598 | From emission through the event list and the merged status to the next emission: the second one sends nothing if and only if the message has no trailing space |
| `Delivery.IndexReportIsNeverSeen` | controllers/templatesync/template_sync.go:326-340 | A report under the index name of a template with a name of its own never changes that template's details, so it does not silence the next one |
| `Delivery.IndexReportArrivesIff` | controllers/statussync/policy_status_sync.go:376-388 | A report under the index name that is newer than all else becomes the first entry of the template if and only if the index name is the name its history is kept under |
| `Replication.VersionsKept` | controllers/specsync/policy_spec_sync.go:165-172 | Whatever the controllers and others do, a snapshot whose version is still current equals the stored object |
| `Replication.CallsAreSteps` | controllers/specsync/policy_spec_sync.go:97-185 | Every API call of either controller, succeeding or failing, is a step of the interleaving model |
| `Replication.Clusters.SpecReconcile` | controllers/specsync/policy_spec_sync.go:81-190 | For every choice of failing calls the reconcile of spec-sync equals a run of its calls in the interleaving model: errors are returned and retried, except that of an update, which is kept; during an uninstallation nothing changes |
| `Replication.FinishRead` | controllers/specsync/policy_spec_sync.go:128-185 | Once the hub policy is read, a spec-sync reconcile that nobody interrupts creates, updates or notifies as the comparison says |
| `Replication.Clusters.StatusReconcile` | controllers/statussync/policy_status_sync.go:100-238 | For every choice of failing calls the reconcile of status-sync equals a run of its calls in the interleaving model; during an uninstallation nothing changes |
| `Replication.Clusters.UpdateStatuses` | controllers/statussync/policy_status_sync.go:539-624 | The same for the second half, with the fall-back to the hub policy read before when reading it again fails |
| `Replication.FinishCompute` | controllers/statussync/policy_status_sync.go:571-621 | From the computed status on, a reconcile that nobody interrupts writes the managed status if it differs and then the hub status if it differs, stopping at the first write that fails |
| `ReplicationLaws.StatusWriteAdvances` | controllers/statussync/policy_status_sync.go:571-590 | Every status update of the managed policy strictly lowers the number of updates still to come, which is at most three |
| `ReplicationLaws.NextBounded` | controllers/specsync/policy_spec_sync.go:97-185 | Every step of either controller or channel strictly lowers a numeric bound |
| `ReplicationLaws.UndisturbedRunsAreBounded` | controllers/statussync/policy_status_sync.go:128-150 | No livelock: left alone, every interleaving of both controllers has at most `Bound` steps from any state with consistent versions |
| `ReplicationLaws.NextWatched` | controllers/statussync/policy_status_sync.go:155-238 | Every step keeps the invariant that a difference between hub and managed cluster, or a status that lacks events, is known to a queued or running request |
| `ReplicationLaws.ReusesHubWatched` | controllers/statussync/policy_status_sync.go:593-603 | Going on with the hub policy read before keeps it too |
| `ReplicationLaws.DropForgetsIff` | controllers/specsync/policy_spec_sync.go:165-180 | An update whose error is kept breaks it if and only if the specs differ and no other request will look at them |
| `ReplicationLaws.ExpiryWatched` | controllers/statussync/eventPredicate.go:52-54 | Events that are deleted wake nobody: the difference of hub and managed cluster stays known, and the status stays tracked if the expiry does not show |
| `ReplicationLaws.ExpiryOutdatesIff` | controllers/statussync/eventPredicate.go:52-54 | A status that is up to date is so after events are deleted if and only if this does not show in it |
| `ReplicationLaws.DisturbWatched` | controllers/specsync/policy_spec_sync.go:81-185 | Outside edits, new events and failing calls whose error is returned establish the invariant from any state, all other disturbances but a dropped update keep it; an edit that reverts the hub spec or an expiry that shows may lose track of the status until status-sync is woken |
| `ReplicationLaws.RunsAreWatched` | controllers/statussync/policy_status_sync.go:155-238 | It holds at the end of every run in which each dropped update is followed by a disturbance that queues a request |
| `ReplicationLaws.RestMeansAgreement` | controllers/specsync/policy_spec_sync.go:97-185 | Whenever both controllers are at rest after such a run, hub and managed are both absent or agree on annotations, spec and status; the status is up to date if each revert of the hub spec and each expiry that shows is followed by a disturbance that wakes status-sync |
| `ReplicationLaws.ControllersSettle` | controllers/specsync/policy_spec_sync.go:97-185 | Left alone after such a run, every interleaving has at most `Bound` steps, and wherever no step is left the policies agree and, with reverts and expiries followed in the same way, the status is up to date |
| `ReplicationLaws.DroppedUpdateLosesSpec` | controllers/specsync/policy_spec_sync.go:170-180 | From every settled state there is a run, with one hub edit and one failing update, that ends at rest with the new spec never copied |
| `ReplicationRecovery.DifferenceHealsIff` | controllers/statussync/policy_status_sync.go:155-238 | While the specs differ and spec-sync is idle, every undisturbed run to the end reaches agreement if and only if a request is waiting once the status-sync reconcile under way is through |
| `ReplicationRecovery.DropHealsIff` | controllers/specsync/policy_spec_sync.go:170-180 | So after a dropped update, wherever status-sync stands: agreement in the end if and only if the specs did not differ or such a request is waiting |
| `ReplicationLaws.RevertLosesEvents` | controllers/statussync/policy_status_sync.go:227-234 | From every settled state with unseen events there is a run, with the hub spec changed and put back, that ends at rest without them |
| `ReplicationRecovery.SomeRunOut` | controllers/specsync/policy_spec_sync.go:97-185 | From every state some undisturbed run goes to its end |
| `ReplicationRecovery.RunsAreNoted` | controllers/statussync/policy_status_sync.go:100-150 | In every reachable state a status-sync reconcile under way works with the current managed policy or the next one is queued |
| `ReplicationRecovery.CatchesUpIff` | controllers/statussync/policy_status_sync.go:155-238 | From any such state in which differences are known, every order of the steps ends with the status up to date if and only if it is, or is to be computed, or a reconcile under way is bound to wake status-sync |
| `ReplicationRecovery.RevertHealsIff` | controllers/statussync/policy_status_sync.go:227-234 | That decides after a revert of the hub spec, wherever the controllers stand; with both idle it means: up to date, a request waiting, or unequal statuses |
| `ReplicationRecovery.ExpiryHealsIff` | controllers/statussync/eventPredicate.go:52-54 | It decides after an expiry, too |
| `ReplicationRecovery.ExpiryAtRest` | controllers/statussync/eventPredicate.go:52-54 | At rest and up to date, an expiry leaves both controllers at rest and the policies in agreement, and the status up to date if and only if it does not show |
| `ReplicationRecovery.ExpiryShowsInSomeRun` | controllers/statussync/eventPredicate.go:52-54 | A settled policy whose status is out of date at rest after one event expired, with no edit of the hub |
| `TemplateObjects.DefaultsIdempotent` | controllers/templatesync/template_sync.go:984-1054 | Filling in the defaults of a filled spec changes nothing, for every kind and every JSON spec |
| `TemplateObjects.OperatorDefaultValues` | controllers/templatesync/template_sync.go:1018-1054 | Of the three operator settings, what the template says stays and what it omits gets its own default |
| `TemplateObjects.StoredIsEquivalent` | controllers/templatesync/template_sync.go:979-1082 | What was created or updated from a template and stored with defaults is found equivalent to it |
| `TemplateObjects.EquivalentIffNothingToUpdate` | controllers/templatesync/template_sync.go:979-1082 | An object is judged equivalent if and only if updating it would change neither spec nor owners and set no new annotation or label |
| `TemplateObjects.OverrideTouchesOneField` | controllers/templatesync/template_sync.go:1431-1481 | The remediation override leaves every other field of the spec as it was |
| `TemplateObjects.PolicyDecidesUnlessInformOnly` | controllers/templatesync/template_sync.go:1431-1481 | Two templates that differ in their action only give the same object under a policy with an action if and only if both or neither say informonly or the policy says inform |
| `TemplateObjects.SyncedAsInformIff` | controllers/templatesync/template_sync.go:1431-1481 | A template is synced as inform if and only if it says informonly in any case, or the policy says inform, or the policy says nothing and it says inform |
| `TemplateSync.CollectTopLevel` | controllers/templatesync/template_sync.go:237-259 | The loop over the dependencies of the policy builds the map in which the first mention wins |
| `TemplateSync.ProcessDependencies` | controllers/templatesync/template_sync.go:1331-1409 | The loop finds exactly the failing dependencies, each with its reason |
| `TemplateSync.DeleteChildren` | controllers/templatesync/template_sync.go:1263-1306 | The inner clean-up loop deletes exactly the listed objects whose names no template has, and fails exactly when one of those deletes does |
| `TemplateSync.CleanUpExcessTemplates` | controllers/templatesync/template_sync.go:1263-1306 | Clean-up over all listed kinds removes exactly the excess objects that can be deleted, and reports an error exactly when a kind could not be listed or an excess object could not be deleted |
| `TemplateSync.RemoveFinalizer` | controllers/templatesync/template_sync.go:1709-1721 | The loop that edits the slice while walking it removes every occurrence and keeps the order of the rest |
| `TemplateSync.FinalizersAfter` | controllers/templatesync/template_sync.go:949-970 | After the pass the finalizer is present exactly when it is to be added, all others as before |
| `TemplateSync.GetDupName` | controllers/templatesync/template_sync.go:1788-1812 | The loop returns the first repeated name before any unreadable template |
| `TemplateSync.FinalizerCleanup` | controllers/templatesync/template_sync.go:1725-1781 | The loop deletes the cluster-scoped objects, going on after failures, and reports an error exactly when some template could not be cleaned up |
| `TemplateSync.TemplateReconciler.Reconcile` | controllers/templatesync/template_sync.go:102-231 | One reconcile changes objects, finalizers, watch and memory as `Reconciled` says, and returns an error exactly when `ReconcileErrs` says: empty policy, duplicate names, uninstallation, deletion, or a pass |
| `TemplateSync.TemplateReconciler.RunPass` | controllers/templatesync/template_sync.go:233-975 | The loop over the templates, with its early returns, each with an error, and what follows it |
| `TemplateSync.TemplateReconciler.EndPass` | controllers/templatesync/template_sync.go:908-975 | Watch, clean-up and finalizer update go on after each other's failures, and the error is that of the templates or of any of them |
| `TemplateSyncLaws.FirstMentionWins` | controllers/templatesync/template_sync.go:237-259 | Each listed object is a dependency with the compliance of its first mention, and no other object is |
| `TemplateSyncLaws.NoFailuresMeansSatisfied` | controllers/templatesync/template_sync.go:1340-1406 | No failure is found if and only if every dependency meets the rule of its group |
| `TemplateSyncLaws.ExtraKeys` | controllers/templatesync/template_sync.go:306-340 | Extra dependencies add exactly the objects they name to the template, and to the watch set, up to a conflict |
| `TemplateSyncLaws.ExtraValues` | controllers/templatesync/template_sync.go:306-340 | Without a conflict every dependency, of policy or template, keeps the compliance it was listed with |
| `TemplateSyncLaws.PrepareMeaning` | controllers/templatesync/template_sync.go:275-483 | The checks before the fetch find the target object exactly when it can be synced, else report a problem, and touch no object |
| `TemplateSyncLaws.TargetWrites` | controllers/templatesync/template_sync.go:488-895 | A template step changes only its own object, with at most one write, and creates or updates only with all dependencies met |
| `TemplateSyncLaws.TargetOutcome` | controllers/templatesync/template_sync.go:488-905 | Read off the cluster and the results of the calls: the step marks the finalizer if and only if it goes through for a cluster-scoped object, and the object is there afterwards if and only if the step goes through or leaves it behind |
| `TemplateSyncLaws.TargetLeavesInSync` | controllers/templatesync/template_sync.go:519-824 | After a step whose calls worked the object needs no update |
| `TemplateSyncLaws.InSyncIsNotUpdated` | controllers/templatesync/template_sync.go:732-824 | An object that needs no update gets none, whatever its calls do |
| `TemplateSyncLaws.CreatedMatches` | controllers/templatesync/template_sync.go:519-540 | A created object matches its template |
| `TemplateSyncLaws.UpdatedMatches` | controllers/templatesync/template_sync.go:732-824 | An updated object matches its template, also when the owner reference was recovered from the parent label |
| `TemplateSyncLaws.DefaultLabelsMeaning` | controllers/templatesync/template_sync.go:1085-1105 | Five labels are set by the controller, every other label comes from the template unchanged |
| `TemplatePassLaws.DupNameIsFirstRepeat` | controllers/templatesync/template_sync.go:1788-1812 | The duplicate check reports a name if and only if the first repetition, with no unreadable template up to it, is of a non-empty name, and then that name |
| `TemplatePassLaws.NoDupNameMeansDistinct` | controllers/templatesync/template_sync.go:1788-1812 | With readable, named templates, an empty answer means all names are distinct |
| `TemplatePassLaws.DistinctNamesDistinctTargets` | controllers/templatesync/template_sync.go:1788-1812 | Then no two templates stand for one object |
| `TemplatePassLaws.WritesAreGated` | controllers/templatesync/template_sync.go:237-506 | Over a whole pass, every Create and Update was for a template whose effective dependencies were all met in the cluster at its turn |
| `TemplatePassLaws.UnmetMeansAbsent` | controllers/templatesync/template_sync.go:663-688 | If a dependency is unmet and calls succeed, the object is absent after the step |
| `TemplateOutcomes.PassMarks` | controllers/templatesync/template_sync.go:591-598 | A pass marks the finalizer if and only if the step of some cluster-scoped template goes through |
| `TemplateOutcomes.PassObjects` | controllers/templatesync/template_sync.go:488-905 | After a pass the object of a template is there if and only if its step went through or left it behind |
| `TemplateOutcomes.PassLeavesOthers` | controllers/templatesync/template_sync.go:488-905 | A pass touches no object that none of its templates stands for |
| `TemplateOutcomes.FinalizerIsExact` | controllers/templatesync/template_sync.go:897-970 | After a reconcile the finalizer is there if and only if a cluster-scoped step went through, objects are there if and only if one went through or left one behind, and so the finalizer matches the objects if and only if some step went through or none left an object behind |
| `TemplateOutcomes.NotReadyLeavesNoTrace` | controllers/templatesync/template_sync.go:573-584 | A ConstraintTemplate created but not reported created exists while neither finalizer flag nor Gatekeeper memory records it |
| `TemplateOutcomes.PassNames` | controllers/templatesync/template_sync.go:273-364 | The names spared by clean-up are those of templates that decode, have no dependency conflict and have a name |
| `TemplateOutcomes.CleanUpIsExact` | controllers/templatesync/template_sync.go:1263-1306 | A whole reconcile removes, of the objects whose names belong to no such template, exactly those that carry the label of the policy, are of a listed kind and can be deleted, and leaves all others as they were; objects with such a name are left as the loop left them |
| `TemplatePassLaws.WatchCoversReads` | controllers/templatesync/template_sync.go:908-927 | A pass that ends gives the watcher every dependency consulted and every object fetched, and nothing that the policy does not list |
| `TemplatePassLaws.SecondPassUpdatesNothing` | controllers/templatesync/template_sync.go:732-824 | After a reconcile whose calls worked, the next pass over the same policy issues no Update, whatever its own calls do |
| `TemplateTwins.PlainStep` | controllers/templatesync/template_sync.go:732-824 | A step for a present object of the policy updates it if and only if it does not match, and leaves it as the template asks |
| `TemplateTwins.TwinsNeverSettle` | controllers/templatesync/template_sync.go:1788-1812 | Two templates for one object behind an unreadable one, neither of which serves the other: every reconcile updates the object twice and leaves it as the second asks |
| `TemplateTwins.TwinsSettleIff` | controllers/templatesync/template_sync.go:732-824 | The second reconcile updates nothing if and only if an object made from one of the two satisfies the other |
| `TemplateTwins.TwinsHappen` | controllers/templatesync/template_sync.go:1788-1812 | Such a policy exists |
| `TemplateTwins.TwinLosesObject` | controllers/templatesync/template_sync.go:897-905 | With such twins the finalizer can be marked by one step and the object deleted by the next |
| `TemplatePassLaws.ClashIffNotOwned` | controllers/templatesync/template_sync.go:732-793 | If the first owner, where there is one, is a Policy, template-sync reports a clash if and only if status-sync judges the object not owned |
| `TemplatePassLaws.OwnersAgreeIff` | controllers/statussync/policy_status_sync.go:330-351 | The two controllers agree about every policy if and only if the first owner is a Policy, or its name, that of the first Policy among the owners and the label fit together |
| `TemplatePassLaws.OtherKindsDivideThem` | controllers/statussync/policy_status_sync.go:330-351 | An owner of another kind that bears the policy name is accepted by template-sync and refused by status-sync |
| `TemplateOutcomes.ClashOutcome` | controllers/templatesync/template_sync.go:663-793 | An object of another policy is never updated; it is deleted if and only if a dependency is unmet or the template has a hub error and the calls for that succeed; otherwise the clash is reported and nothing changes |
| `TemplateOutcomes.StepErrors` | controllers/templatesync/template_sync.go:663-688 | An earlier error is lost if and only if the step deletes an existing object that turned pending and the report of that fails |
| `TemplateOutcomes.PassErrorsIff` | controllers/templatesync/template_sync.go:663-688 | The loop ends with an error if and only if the error of some template is not followed by such a step |
| `TemplateOutcomes.LostError` | controllers/templatesync/template_sync.go:670-674 | A reconcile with an unreadable template and then such a step returns no error |
| `TemplateOutcomes.LostErrorHappens` | controllers/templatesync/template_sync.go:670-674 | Such a policy and cluster exist |
| `TemplatePassLaws.CleanupDeletesAll` | controllers/templatesync/template_sync.go:1733-1780 | Deletion clean-up removes the object of every template it does not fail for |
| `TemplatePassLaws.CleanupTouchesOnlyTargets` | controllers/templatesync/template_sync.go:1733-1780 | It leaves every object alone that no template names |
| `TemplatePassLaws.FinalizerOutlivesObjects` | controllers/templatesync/template_sync.go:194-225 | The deletion path removes the finalizer only when every mapped cluster-scoped object of a decodable template is gone |
| `Gatekeeper.BuildMessage` | controllers/gatekeepersync/gatekeeper_constraint_sync.go:272-302 | The loop joins the well-formed violations and skips the others |
| `Gatekeeper.CompliantText` | controllers/gatekeepersync/gatekeeper_constraint_sync.go:243-304 | The report is compliant if and only if its text is the one for no violations, and never pending or unknown |
| `Gatekeeper.TextDeterminesCompliance` | controllers/gatekeepersync/gatekeeper_constraint_sync.go:338-358 | Equal texts have equal compliance, so a cache of texts is enough |
| `Gatekeeper.ConstraintReconciler.SendComplianceEvent` | controllers/gatekeepersync/gatekeeper_constraint_sync.go:328-411 | Sends, skips as already cached, or clears the cache on seeing the message first in the status, and updates cache and trace accordingly |
| `Gatekeeper.ConstraintReconciler.Clean` | controllers/gatekeepersync/gatekeeper_constraint_sync.go:313-320 | The cached keys of the policy that are not kept go, each reported once; all others stay |
| `Gatekeeper.ConstraintReconciler.Reconcile` | controllers/gatekeepersync/gatekeeper_constraint_sync.go:97-323 | Templates in order up to the first error, then clean-up; a deleted policy loses all its keys |
| `Gatekeeper.StepFaithful` | controllers/gatekeepersync/gatekeeper_constraint_sync.go:378-408 | Every reconcile keeps the cache equal to what its trace leaves pending |
| `Gatekeeper.NoRepeatWithoutCause` | controllers/gatekeepersync/gatekeeper_constraint_sync.go:378-408 | Over every run, between two sends of one message for one constraint there is a send of another message, a sighting in the policy status, or removal of the key |
| `Supervisor.Manager.Manage` | main.go:846-957 | The loop over any sequence of listings and events follows the state machine |
| `Supervisor.Manager.Round` | main.go:854-957 | One turn of the loop, with its continues and returns, is one transition of the state machine |
| `Supervisor.Manager.StartOrStop` | main.go:889-923 | Starting and stopping the manager is the first half of a transition |
| `Supervisor.Manager.Select` | main.go:925-955 | The select statement is the second half |
| `Supervisor.DoInv` | main.go:854-957 | Every turn, goroutine exit and closing of the parent keeps the invariant |
| `Supervisor.OneManagerIffInstalled` | main.go:886-913 | At every wait point with the parent open, exactly one manager has a live context if Gatekeeper is last known installed, none otherwise; a manager just started has an uncancelled context |
| `Supervisor.WaitGroupBalances` | main.go:886-913 | Over every run Done is called at most as often as Add, equally often exactly when every goroutine has exited |
| `Supervisor.ReturnStopsAll` | main.go:914-957 | Once the supervisor has returned, every goroutine it started is told to stop |
| `Supervisor.CanReturnIffWatching` | main.go:854-934 | Once the parent context is closed, some run leads to a return if and only if there still is a watcher |
| `Supervisor.NeverReturns` | main.go:928-941 | There is a run in which the end of the watcher is noticed before that of the parent, after which it never returns |
| `Uninstall.Cleaner.DeletePolicies` | controllers/uninstall/triggeruninstall.go:198-234 | The retry loop over any sequence of rounds follows the model, with its three ways to end |
| `Uninstall.DeletedPolicyGoesIff` | controllers/templatesync/template_sync.go:159-225 | A marked policy with only the clean-up finalizer loses it if and only if it has no templates, or no repeated name and every cluster-scoped template can be deleted |
| `Uninstall.RoundShrinks` | controllers/uninstall/triggeruninstall.go:198-234 | A round that is not held up, followed by one working template-sync reconcile, makes the policy set strictly smaller |
| `Uninstall.DeletePoliciesFinishes` | controllers/uninstall/triggeruninstall.go:198-234 | With such rounds the loop returns success within one round more than there were policies |
| `Uninstall.SuccessMeansNoPolicies` | controllers/uninstall/triggeruninstall.go:206-224 | Success is returned only on an empty listing, whatever happened before |

## Left out

- Informer caches and their staleness, Kubernetes clients, discovery and the dependency-watch library: replaced by
  object stores and explicit call results.
- JSON encoding and decoding: templates are datatypes with cases for unreadable JSON and a missing kind. Decoding the
  same bytes twice gives the same answer.
- `ApplyObjectDefaults`, the defaulting of ConstraintTemplates by foreign code: taken to change nothing.
- The v1beta1 fallbacks of clean-up, near copies of the v1 branches; the length test at
  controllers/templatesync/template_sync.go:1176 reads the other list. No ConstraintTemplate CRD counts as an empty list.
- StatusSync.GetDetails: assumes distinct template names within a policy, because details are shared through pointers,
  event lists through slices, and the order of updates would matter otherwise.
- StatusSync.CollectDetails: the same.
- Replication.Clusters.SpecReconcile: deletes the managed policy at once (finalizers are in `TemplateSync` and
  `Uninstall`), and does not model the label and owner reference rewriting of a created policy.
- Replication.Clusters.StatusReconcile: channels are unbounded, and the mode in which hub and managed cluster are one
  is not modelled.
- TemplateSync.TemplateReconciler.RunPass: reports are kept as kinds, not texts, and the created flag of a
  ConstraintTemplate status is one value.
- TemplateObjects.StoredIsEquivalent: assumes that the API server stores what it is sent, with the defaults that
  `equivalentTemplates` knows of.
- Gatekeeper.TextDeterminesCompliance: the cache holds texts, with SHA-1 taken as injective.
- Gatekeeper.BuildMessage: a violation without a name that is a string makes the program panic, which counts as a
  reconcile that failed at that point; recovering from it is left to the controller library.
- Supervisor.Manager.Manage and Uninstall.Cleaner.DeletePolicies: the endless loops are modelled over finite sequences
  of inputs of any length, and sleeping is left out.
- The uninstall annotation and its watcher, secret sync, event predicates and mappers: short filters and copies that
  would add only easy members. Of the predicates, only that deleted events wake nobody is modelled; events that carry
  the identifier of the policy but name an object of another kind are taken to wake status-sync.
- HistoryLoss.LossKeepsIffNoBridge: an expired event has a name of its own and shares its time with no different entry;
  `HistoryLoss.TiesReorder` shows why.
- TemplatePassLaws.SecondPassUpdatesNothing: templates stand for different objects; `TemplateTwins` has the others.
- `ErrList.Aggregate` and `IsAllowedPolicy`: a fold and a scan; errors are counted instead of joined.
- Metrics, logging, flags, health proxy, leases, leader election and manager set-up.
- Go data races and the sharing of slice storage between reconciles: reconciles of one policy are sequential.
- Years outside the range of the `date-time` form of section 5.6 of RFC 3339, and lower-casing beyond ASCII.
