# Northplane core: models and proofs

Dafny models of the parts of the monitoring server that carry state machines, in-memory indexes, graph walks or
arithmetic, with proofs about whole runs of them. `dafny verify dfyconfig.toml` checks everything.

Methods, classes and loops follow the places where the Go code works step by step; each is tied to a specification
function or state predicate, and what the system promises is proved about those.

| files | what they model |
|---|---|
| `CatalogModel`, `CatalogIndex`, `CatalogPatches`, `Catalog`, `CatalogMeaning` | The object catalog: effective specifications through the template chain, the name index, and the host, child and parent links that single-object updates patch in place. The main result runs any sequence of saves, deletions and tenant reloads and shows the index equal to a rebuild; `CatalogMeaning` says what every entry of such an index is, which program it runs included. |
| `EscalationMachine`, `EscalationPacing`, `Escalation` | One alert's escalation chain as a machine of small steps, in which acknowledgement, StopChain and the clock interleave with the reads and writes inside a fire; how far apart its pages are; and the engine over its durable timer table, tied to that machine. |
| `AlertingModel`, `AlertingSteps`, `AlertingLives`, `AlertingRuns`, `Alerting` | Rules that must match for a while before they alert, alerts opened while suppressed, and what becomes of the page each of them owes: the logs of deduplication keys, the engine's steps and what they keep, what ends an alert and what changes it, whole runs described by their inputs, and the engine's maps updated in place. |
| `BundleModel`, `BundleStore`, `BundleOutcomes`, `BundleRuns`, `BundleConvergence`, `BundlePlans`, `BundleExports`, `BundleApi` | Declarative bundles: identities, validation, order, plan, apply, prune, export; what each outcome means and where a run ends; the convergence and idempotence of the whole. |
| `BusinessTree`, `BusinessMeaning`, `Sla`, `SlaMeaning` | Business services over arbitrary parent links, their aggregation rules and what an evaluated tree shows; downtime accounting as a measure of instants, and what downtimes and histories say of an instant. |
| `Espa`, `EspaMeaning` | The ESPA 4.4.4 serial paging receiver: block check, framing, records, and the session over any byte stream; which blocks are calls and what their events carry. |
| `Roles` | Nested role expansion with its shared `seen` set and depth cut-off. |
| `Series`, `Anomalies`, `Forecast`, `StatsMeaning` | Run detection and the least-squares forecast, over exact reals, and their units and directions in plain numbers. |
| `RateLimit` | The per-source token bucket. |
| `Basics` | Optional values and slash-joined strings. |

Integers in nanoseconds or milliseconds are unbounded; floats are exact reals; strings are sequences of characters
(bytes in `Espa`). Functions that look outside (decoding a specification, checking a document, the clock, new
identifiers, template lookup in other services) are parameters.

## Where code and documentation part

The models follow the code. The differences found, each with a proof:

- `availability` calls its sum "union of per-object downtime". It adds the leaves' downtimes; the sum is the union
  exactly when no two leaves are down at the same instant or the union fills the window (`Sla.ReportedIsUnionIff`).
  An object that is both named and selected counts twice (`Sla.NamedAndSelectedCountsTwice`).
- `truncate` promises at most n bytes; a text that is cut ends up at n + 2 (`Espa.TruncateKeepsCapIff`).
- Downtime exclusion is exact for every history if and only if downtimes change on minute marks
  (`Sla.ExactForEveryHistoryIffAligned`).
- A restarted chain keeps the policy name of its first start, because the timer upsert does not overwrite it
  (`Escalation.Engine.StartChain`).
- Two rules that render the same deduplication key mix (`AlertingModel.DraftRuleAgreesIff`,
  `AlertingModel.TwoRulesMix`).
- A match merged into an active alert is taken to have its chain running already (internal/alerting/engine.go:292).
  It has not when that alert's rule has no policy, its start failed, it is held, or it was found closed and opened
  again (`AlertingRuns.MergedIntoRunningChainIff`); under an alert of a rule without policy, matches of escalating
  rules page nobody (`AlertingRuns.UnescalatedAlertSwallowsPages`).
- Role references load by name and by identifier, but the expansion remembers references: a role can contribute twice
  (`Roles.RolesContributeOnceIff`, `Roles.NameAndIdContributeTwice`).
- Role expansion loses reachable roles at the cut-off: always those more than eight includes away
  (`Roles.ExpansionStaysNear`), sometimes nearer ones (`Roles.NearbyRoleIsLost`, `Roles.AliasesLoseNearRoles`). Which
  of the nearer ones depends on the order in which grants and includes are listed, not only on what includes what
  (`Roles.OrderDecides`), so no condition on the graph is exact: `Roles.CompletenessIsBracketed` gives the two that
  enclose it.
- Relinking the catalog accumulates child entries under a host that is not there
  (`CatalogIndex.RelinkingIsIdempotentIff`, `CatalogIndex.MissingHostAccumulates`), and a stored builtin command
  without a line makes indexing fail hard (`CatalogModel.PanicsIff`).
- Pruning compares identity strings in which a host's name and a service's name are joined by a slash, so a stored
  service can survive (`BundleConvergence.ConvergesIff`, `BundleConvergence.JoinedLeavesStale`).
- A resource document that sets an envelope field is written again on every apply (`BundleRuns.SecondApplyIff`,
  `BundleStore.EnvelopeFieldIsRewritten`).
- An export is not a fixed point. The upload is refused where two services' host and name join to the same text or a
  name is empty or holds a newline or tab (`BundleExports.ExportIsReadableIff`, `BundleExports.JoinedExportIsRefused`),
  and applying it does something where stored labels are not strings or validation no longer accepts a stored document,
  because documents are validated before they are compared (`BundleExports.ExportThenApplyIff` puts both together).
- A plan announces updates that applying does not make (`BundlePlans.PlanOverstatesIff`,
  `BundlePlans.UnlabelledHostIsPlanned`), and a service the plan does not mention is lost when its host is pruned
  (`BundlePlans.UntouchedIff`).

## Model

| member | source | states |
|---|---|---|
| Catalog.RunEqualsRebuild | internal/catalog/catalog.go:60-249 | After any sequence of saves, deletions and reloads, a second catalog loaded afresh from the store as it is then has the same entries, names, host links, child lists up to order and parent lists. |
| Catalog.FollowingDeterminesTheIndex | internal/catalog/catalog.go:86-249 | Two catalogs that follow the same store are indistinguishable, whatever runs led to them. |
| Catalog.Catalog.Run | internal/catalog/catalog.go:86-249 | Every run of possible events keeps the catalog what a rebuild from the store's current objects and configuration would make it. |
| Catalog.Catalog.UpsertObject | internal/catalog/catalog.go:204-225 | Patching one object in place restores the whole index for the new set of objects; reports an error exactly for a configuration error. |
| Catalog.Catalog.RemoveObject | internal/catalog/catalog.go:227-249 | Takes out the object and the services on it, restores the index, and reports every removed id once. |
| Catalog.Catalog.ReloadTenant | internal/catalog/catalog.go:85-176 | Dropping and re-reading a tenant gives the index of the store's objects and configuration and leaves the other tenants' configuration alone. |
| Catalog.Catalog.LoadAll | internal/catalog/catalog.go:60-83 | Loading tenant after tenant gives a catalog that follows the store. |
| Catalog.Catalog.LoadTenant | internal/catalog/catalog.go:122-176 | Configuration first, then objects page by page, then edges: the result is right for all tenants if the others were. |
| Catalog.Catalog.IndexPages | internal/catalog/catalog.go:146-172 | Cursor paging indexes every object of the tenant exactly once, whatever the listing's length is modulo the page size. |
| Catalog.Catalog.Relink | internal/catalog/catalog.go:176-202 | Two passes in arbitrary order give every entry of the tenant its edges and every hosted service its host link, and change no other link. |
| Catalog.Catalog.IndexOne | internal/catalog/catalog.go:255-271 | One object gets a fresh entry and its name; one that cannot be resolved gets the defaults. What the entry's fields are is `CatalogMeaning.IndexedMeans`. |
| Catalog.Catalog.GetByName | internal/catalog/catalog.go:327-336 | Finds an entry exactly when an object with these four name parts exists, and then that object's. |
| Catalog.Catalog.DropTenant | internal/catalog/catalog.go:89-119 | Forgets exactly the tenant's entries, lists, names and configuration. |
| CatalogIndex.RelinkingIsIdempotentIff | internal/catalog/catalog.go:176-202 | Relinking again changes no list up to order if and only if every hosted service names an entry of its tenant. |
| CatalogIndex.MissingHostAccumulates | internal/catalog/catalog.go:186-194 | Every relinking adds a service whose host is missing once more to the list kept under that host. |
| CatalogIndex.RelinkedIsExact | internal/catalog/catalog.go:176-202 | With hosts present, relinking yields exactly the edges of the tenant's objects and no stray list. |
| CatalogIndex.RelinkRestores | internal/catalog/catalog.go:204-249 | A patch confined to one tenant followed by relinking makes all edges of all tenants right again. |
| CatalogIndex.EdgesElsewhere | internal/catalog/catalog.go:178-202 | Edges of other tenants stay right although the name index changed. |
| CatalogIndex.NamesAfterTenantDrop | internal/catalog/catalog.go:99-103 | Deleting by key prefix removes exactly the tenant's names. |
| CatalogIndex.PutAll | internal/catalog/catalog.go:123-143 | Loading a tenant's definitions fills its part of the flat map, later ones winning, and no other part. |
| CatalogIndex.UniquePartsGiveUniqueKeys | internal/catalog/catalog.go:251-253 | Two objects share a name key exactly when tenant, kind, host and name agree. |
| CatalogModel.NameKeyIsInjective | internal/catalog/catalog.go:251-253 | With slash-free tenants and hosts the joined key determines its four parts, slashes in names included. |
| CatalogModel.EffectiveIsOverlay | internal/model/objects.go:378-414 | The recursive template merge is one overlay of defaults, templates in order, and the object's own settings. |
| CatalogModel.ResolveIsOverlay | internal/model/objects.go:386-406 | The same for any list of templates on top of any accumulated specification. |
| CatalogModel.LastSetterWins | internal/model/objects.go:148-232 | In an overlay each field has the value of the last layer that sets it; variables key by key. |
| CatalogModel.EachTemplateOnce | internal/model/objects.go:384-406 | A successful resolution uses each template once, only existing ones, and the chain names exactly those. |
| CatalogMeaning.EntryMeans | internal/catalog/catalog.go:86-322 | In a catalog that follows the store, every entry is what its object's templates, its tenant's stored commands and periods make of it, as `IndexedMeans` says; the store's last definition of a name counts. |
| CatalogMeaning.IndexedMeans | internal/catalog/catalog.go:255-322 | What one object's entry keeps: its effective specification, the effective arguments as macro values, what it runs, and the check period exactly when that is stored; it is a configuration error exactly when its templates do not resolve or it names a command that is not stored, and then it has the defaults and runs nothing. |
| CatalogMeaning.CommandMeans | internal/catalog/catalog.go:274-320 | A reference resolves exactly when it is inline or names a stored command. A named one runs the stored line as it is, in the stored class and environment, the object's arguments only filling macros; an inline one runs the text after its prefixes followed by the arguments; a passive one runs nothing. |
| CatalogMeaning.ResolvesAlong | internal/model/objects.go:384-406 | Templates are merged bases first and in the order they are named, and the chain lists each before its bases: the post-order and the pre-order of the forest of includes. |
| CatalogMeaning.EffectiveIff | internal/model/objects.go:378-414 | An object has an effective specification if and only if its includes form a finite forest of existing templates in which none is met twice. |
| CatalogMeaning.CycleIsAnError | internal/model/objects.go:384-406 | Two templates that include each other make whoever uses one of them a configuration error. |
| CatalogMeaning.EffectiveFields | internal/model/objects.go:148-232 | Each field of an effective specification has the value of the highest layer that sets it: own settings over templates, later templates over earlier ones, a template over its bases, defaults last; the declared template list stays. |
| CatalogMeaning.EdgesMean | internal/catalog/catalog.go:176-202 | In a catalog that follows the store: under a host exactly the services placed on it, each once, and the stored hosts its effective parents name, in order; a service's host link is its host's entry. |
| CatalogMeaning.EventsMean | internal/catalog/catalog.go:204-249 | What the events of a run do to the store: saving sets one object; deleting takes it and, of a host, its services; a reload changes nothing but one tenant's configuration. |
| EscalationMachine.ChainStaysUndisturbed | internal/escalation/escalation.go:76-148 | Over every run of worker and clock: one live step at a time, repeats counted right, and no step fires before its predecessor or before its time. |
| EscalationMachine.ArmedStepsFormPrefix | internal/escalation/escalation.go:126-133 | Armed steps always form a prefix of the policy. |
| EscalationMachine.QuietChainRanEverything | internal/escalation/escalation.go:76-148 | A chain at rest has run step k exactly 1 + MaxRepeats times, once if RepeatEvery is not positive. |
| EscalationMachine.FirePages | internal/escalation/escalation.go:76-122 | A fire on an open alert pages once; on an acknowledged one once, unless the step is to be skipped then; on a closed or vanished one, or beyond the policy, not at all. |
| EscalationMachine.AnsweredSkips | internal/escalation/escalation.go:107-122 | Once an alert is answered and no fire that read it before is in flight, every page of any run is of a step of the policy that does not ask to be skipped when acknowledged; a closed alert is not paged at all unless a fire in flight had read it acknowledged. |
| EscalationPacing.ChainKeepsPace | internal/escalation/escalation.go:124-147 | Over every run of worker and clock: repeats of a step are at least its interval apart, a step that is late follows its predecessor by five seconds or more, and no live timer is due later than its configured time, five seconds or its interval from now. |
| EscalationMachine.ChainTerminates | internal/escalation/escalation.go:76-148 | No run has more productive moves than the work the chain started with. |
| EscalationMachine.ChainIsNeverStuck | internal/escalation/escalation.go:56-74 | As long as a chain is not at rest, answered or not, the worker can move, if need be after letting time pass. |
| EscalationMachine.LateReadsArmNothing | internal/escalation/escalation.go:107-148 | From a state in which no fire that read the alert before the answer is in flight, no run of any moves brings a timer to life. |
| EscalationMachine.AcknowledgedChainEnds | internal/escalation/escalation.go:34-148 | From the start of a chain through a run, an acknowledgement, a run, StopChain and a run: only the step in flight at the acknowledgement and its successor can be live, the polled timers and at most two more fire, the worker's moves are bounded, and when it has no more, however long it waits, no timer is left. |
| EscalationMachine.AnsweredChainComesToRest | internal/escalation/escalation.go:56-148 | Any run after the answer can be continued to rest, with nothing in flight, nothing polled and no live timer, within the bound on productive moves. |
| EscalationMachine.AtRestIff | internal/escalation/escalation.go:56-74 | The worker has nothing left to do, however long it waits, exactly when the chain is at rest. |
| EscalationMachine.AnsweredChainTerminates | internal/escalation/escalation.go:56-148 | After the answer the worker makes a bounded number of productive moves. |
| EscalationMachine.AtMostTwoTimersOutliveStop | internal/escalation/escalation.go:110-148 | After answer and StopChain at most two timers are ever live, the successor and the repeat of a fire in flight, and none without such a fire. |
| EscalationMachine.FiresAfterStop | internal/escalation/escalation.go:110-148 | Only timers already polled and those two can still fire, each once. |
| EscalationMachine.PagesAfterStop | internal/escalation/escalation.go:110-148 | An answered alert is paged at most three times more than timers were polled when its chain stopped. |
| EscalationMachine.FiresAreBounded | internal/escalation/escalation.go:56-148 | Over any run after the answer the fires are bounded by what could still fire at its start. |
| EscalationMachine.ShotsShrink | internal/escalation/escalation.go:76-148 | Once answered, nothing adds to what can fire and every fire uses some of it up. |
| EscalationMachine.UndisturbedIsOrderly | internal/escalation/escalation.go:76-148 | The states in which an acknowledgement can meet a running chain satisfy what the race results need. |
| Escalation.Engine.Fire | internal/escalation/escalation.go:76-148 | One fire writes the timer rows and pages of the machine's moves for its alert and touches no other alert; when it pages is `EscalationMachine.FirePages`. |
| Escalation.Engine.RunOnce | internal/escalation/escalation.go:56-74 | One tick of the worker over the timers of many alerts: it takes at most 200 due ones, and all of them when fewer are due; for every alert whose polled timers name one policy, it is the machine's poll followed by its fires, however they interleave with those of others. |
| Escalation.Engine.DueEscalations | internal/storage/queue.go:38-59 | Reads due timers as they are in the table, each once and earliest first; what the limit leaves out is due no earlier than what is read, and below the limit nothing is left out. |
| Escalation.Engine.StartChain | internal/escalation/escalation.go:34-49 | Arms step 0 at OpenedAt + After, fails for an unknown policy, and keeps an earlier policy name on a restart. |
| Escalation.Engine.StopChain | internal/escalation/escalation.go:51-54 | Marks all timers of the alert done and no others. |
| Escalation.FireIs | internal/escalation/escalation.go:76-148 | A whole fire is the machine's begin, notify, arm and re-arm moves in a row. |
| AlertingRuns.OpensIff | internal/alerting/engine.go:220-342 | An input opens an alert with a rule, draft and world if and only if the inputs so far call for it (a match of a rule without hold time, a silent heartbeat, or a tick that finds the key matched first by the rule at least its hold time ago, last with the draft, and not cleared or due in between), the store accepts it and no active alert has the key. |
| AlertingRuns.EveryAlertWasCalledFor | internal/alerting/engine.go:220-342 | Every alert of a run was called for by the inputs up to the one that opened it. |
| AlertingRuns.PageFate | internal/alerting/engine.go:285-380 | The page owed by an alert of an escalating rule, exactly: its chain starts once, at an unsuppressed opening the escalator accepts or else at the first look that finds it open, unsuppressed and accepted; it is given up only when the start at the opening failed or a look found it closed or gone; until then it is held. |
| AlertingRuns.LogsAreOfInputs | internal/alerting/engine.go:220-283 | The logs of a run are functions of its inputs alone: which matches, clears and firings a key has seen. |
| AlertingRuns.MergedIntoRunningChainIff | internal/alerting/engine.go:285-293 | A merged match owes nothing, and the alert it is merged into has its chain running exactly when that alert's rule escalates, its start did not fail, it is not held and it was not found closed before. |
| AlertingRuns.UnescalatedAlertSwallowsPages | internal/alerting/engine.go:285-293 | As long as an alert of a rule without policy holds a key, no alert of the key opens and no chain of it starts, whatever matches. |
| AlertingLives.AliveUntilEnded | internal/alerting/engine.go:397-422 | Over whole runs: an alert that is open or acknowledged stays so exactly until an input removes it, closes it from outside, or clears its key with an update the store accepts. |
| AlertingLives.StepOnAlert | internal/storage/alerts.go:48-111 | What any step does to an alert: only removal takes it away; only a clear of its key or a change from outside changes the status, and only of an active alert; only a merged match, heartbeat or due entry changes the content; nothing changes the rest. |
| AlertingLives.ClearEnds | internal/alerting/engine.go:397-422 | A clear the store accepts leaves no active alert of its key, takes none away, and resolves exactly the one that held the key. |
| AlertingModel.KeysMean | internal/alerting/engine.go:220-268 | Alerts of different tenants never share a key, and with slash-free tenants neither do the joined texts. |
| AlertingModel.WaitingIsOfInputs | internal/alerting/engine.go:220-283 | Over any inputs an entry waits for a key exactly when the key was matched and since then neither cleared nor found due, and it has the first match's rule and time and the newest match's draft. |
| AlertingModel.WaitingIsRunOfMatches | internal/alerting/engine.go:252-283 | A pending entry stands for the run of matches since the last clear or firing: time and rule of the first, draft of the newest. |
| AlertingModel.DueEntryHeldLongEnough | internal/alerting/engine.go:270-283 | A due entry has been matched since its first match at least the hold time ago, with no clear in between. |
| AlertingModel.DraftRuleAgreesIff | internal/alerting/engine.go:252-283 | The draft names the rule it waited for exactly when the newest match was that rule's. |
| AlertingModel.TwoRulesMix | internal/alerting/engine.go:252-268 | Two rules with one key: the alert waits for the first rule and is drafted by the second. |
| AlertingSteps.StepKeepsOk | internal/alerting/engine.go:120-380 | Every step keeps the invariant: pending is what the logs say, one active alert per key, every alert opened under a rule and held through if it waited, one fate for every page owed and chains only under the rule's policy. |
| AlertingSteps.StepOpensExactly | internal/alerting/engine.go:220-342 | A step makes exactly the alerts its input asks for in that state, one for each key. |
| AlertingSteps.FiringOpens | internal/alerting/engine.go:270-283 | Whatever the order in which due entries are opened: one alert for each that has no active one, and no other page is touched. |
| AlertingSteps.StepKeepsFates | internal/alerting/engine.go:285-380 | Only looking again changes what became of an earlier page, and a page owed since is settled or held. |
| Alerting.Engine.Run | internal/alerting/engine.go:120-137 | Any sequence of matched events, heartbeats, ticks and changes by others is a run of the steps; from a fresh engine on the logs are those of the inputs and every alert was called for by them. |
| Alerting.Engine.WaitingAlertsWereHeld | internal/alerting/engine.go:252-283 | In every reachable state, an alert that a matched event opened under a rule with a hold time fired after a run of matches that began with that rule's at least the hold time before, with no clear of the key in between, and was opened with the newest match's draft. |
| Alerting.Engine.NoPageIsLost | internal/alerting/engine.go:285-380 | In every reachable state an alert opened under an escalating rule, stored or deleted since, has had its chain started by this engine exactly once, or is held, or was found closed or gone, or could not start when it opened; which one the world decided at its opening, unless the alert was suppressed then. |
| Alerting.Engine.MatchedEvent | internal/alerting/engine.go:220-268 | Clear, wait or open: the step of the event, in every reachable state. |
| Alerting.Engine.HeartbeatMissed | internal/alerting/engine.go:552-563 | A silent source opens at once, whatever the rule's hold time. |
| Alerting.Engine.FirePending | internal/alerting/engine.go:270-283 | Takes out exactly the due entries and opens them one after the other in some order. |
| Alerting.Engine.OpenAlert | internal/alerting/engine.go:285-342 | A fresh alert of an escalating rule has its chain started, is held while suppressed, or its start failed, as the world answers; otherwise the active alert is refreshed and nothing is owed. |
| Alerting.Engine.UpsertAlert | internal/storage/alerts.go:48-111 | One active alert per key: refreshes it or opens a new one. |
| Alerting.Engine.ReEvaluateOne | internal/alerting/engine.go:344-380 | A held alert starts its chain only while open, unsuppressed and accepted, or is forgotten when no longer open, or stays held. |
| Alerting.Engine.ReEvaluateSuppressed | internal/alerting/engine.go:344-374 | Looks once at every alert held when the tick begins. |
| Alerting.Engine.ResolveByDedup | internal/alerting/engine.go:397-422 | Forgets what was pending under the key and resolves its active alert, whose chain is stopped. That this ends the alert and nothing else is `AlertingLives.ClearEnds`. |
| BundlePlans.BundleConverges | internal/api/bundles.go:476-521 | A validated bundle that brings its services' hosts never meets an unknown host; completed and pruned, exported identities are the bundle's non-Role identities exactly when no stored service is stale. |
| BundlePlans.BundleIsIdempotent | internal/api/bundles.go:476-521 | The same bundle again, pruning included, writes nothing and schedules no deletion, provided no document sets an envelope field. |
| BundlePlans.UntouchedByRun | internal/api/bundles.go:489-508 | A document that is in force or absent from the plan is untouched by the run, whether it completes or stops at a failure. |
| BundlePlans.UntouchedIff | internal/api/bundles.go:476-521 | Its entry is the same after the whole operation, and is lost only as a service whose host a completed run prunes. |
| BundlePlans.InForceDocIsSkipped | internal/api/bundles.go:562-567 | A completed run reports no change for a document that was in force before it. |
| BundlePlans.AbsentIsInForceIff | internal/api/bundles.go:317-360 | A document the plan leaves out is in force exactly when validation accepts it. |
| BundlePlans.PlanOverstatesIff | internal/api/bundles.go:349-351 | The plan announces an update that applying does not make exactly for hosts and services in force whose document has no labels. |
| BundlePlans.UnlabelledHostIsPlanned | internal/api/bundles.go:349-351 | Any stored host without labels and a document that repeats it without labels are such a case. |
| BundleExports.ExportThenApplyIff | internal/api/bundles.go:476-722 | Export and upload again: the upload is read and the run changes nothing if and only if names are clean, no two services join to the same text, stored labels are strings and every stored document is still accepted; nothing is pruned in any case. |
| BundleExports.ExportIsReadableIff | internal/bundle/bundle.go:57-146 | An export can be uploaded again exactly when names are clean and no two exported services share an identity string. |
| BundleExports.JoinedExportIsRefused | internal/bundle/bundle.go:128-146 | Hosts a and a/b with services b/c and c: whatever the checks say, validation refuses the export as holding a duplicate. |
| BundleExports.ApplyingExportIff | internal/api/bundles.go:531-722 | Applying an export's documents, in any order, finds everything in force exactly when stored labels are strings and validation still accepts every stored document. |
| BundleExports.ExportAfterRunIff | internal/api/bundles.go:476-722 | The same round trip for the store any bundle run has left, which keeps rows as the store normalises them. |
| BundleExports.ExportedIsInForceIff | internal/api/bundles.go:665-719 | One exported entry is in force exactly when its labels are strings and validation accepts it. |
| BundleConvergence.ConvergesIff | internal/api/bundles.go:291-312 | Apply and prune reach the bundle's identities if and only if no stored service shares its joined text with another service of the bundle on a host that stays. |
| BundleConvergence.DeletionOrderIsIrrelevant | internal/storage/objects.go:113-132 | In any order the scheduled deletions remove the same entries, hosts taking their services along. |
| BundleConvergence.SlashFreeHostsConverge | internal/bundle/bundle.go:120-126 | Without slashes in host names nothing is stale. |
| BundleConvergence.JoinedLeavesStale | internal/bundle/bundle.go:120-126 | A family of stores with a stale service for valid bundles: service b/c on host a against service c on host a/b. |
| BundleConvergence.JoinedIsValid | internal/bundle/bundle.go:120-146 | Those bundles pass validation and bring their services' hosts. |
| BundleRuns.SecondApplyIff | internal/api/bundles.go:531-608 | Applying a bundle twice changes nothing the second time if and only if no document sets an envelope field. |
| BundleStore.EnvelopeFieldIsRewritten | internal/api/bundles.go:417-452 | A document whose specification sets an envelope field is written again by the second apply. |
| BundleRuns.HostsAreAlwaysKnown | internal/api/bundles.go:489-508 | Whatever else may fail, no service meets an unknown host when host documents come first. |
| BundleRuns.SortingPutsHostsFirst | internal/bundle/bundle.go:33-42 | The kind order puts every service after its host. |
| BundleRuns.AppliedKeys | internal/api/bundles.go:496-508 | A completed run leaves the stored identities plus the bundle's. |
| BundleRuns.NothingHappensIff | internal/api/bundles.go:533-608 | A run does nothing if and only if every document is in force. |
| BundleStore.AppliedIsInForceIff | internal/api/bundles.go:533-608 | A document just applied is in force if and only if it sets no envelope field. |
| BundleStore.AppliedReadsBack | internal/api/bundles.go:553-607 | What was applied is what is stored: folder, labels and specification of an object; every field outside the envelope of a document, labels over data over specification. |
| BundleOutcomes.OutcomeMeans | internal/api/bundles.go:533-608 | Every outcome of applying a document, exactly: malformed, unknown host, refused, no change, created or updated, each if and only if the stored configuration and the check say so; an object in force is not checked, a resource always is. |
| BundleOutcomes.WrittenIsAccepted | internal/api/bundles.go:533-608 | What is written has passed its check, in the form in which it is then stored; what fails or changes nothing writes nothing. |
| BundleOutcomes.InForceMeans | internal/api/bundles.go:388-452 | A document is in force if and only if the stored entry agrees with it: folder, labels and every field of an object's specification; every field a resource document sets, none of them an envelope field, once its check accepts it. |
| BundleOutcomes.RunGoesInOrder | internal/api/bundles.go:496-508 | Each outcome of a run is that of its document in the store reached before it; only the last can be a failure, and without one every document has had its turn. |
| BundleOutcomes.RunStopsIff | internal/api/bundles.go:496-508 | A run ends early exactly at a document that is malformed, names an unknown host or is refused, and writes nothing for it or after it. |
| BundleOutcomes.ChangesWereAccepted | internal/api/bundles.go:496-608 | Whatever differs after a run, completed or not, was written by one of its documents and had passed its check in the store it met. |
| BundleOutcomes.PrunedIff | internal/api/bundles.go:291-312 | After a completed run with pruning an applied entry is gone exactly when it was stored before, is no role, is not mentioned and is matched by the selector, if there is one, or is a service whose host went; without pruning or after a failure nothing goes. |
| BundleOutcomes.PlanMeans | internal/api/bundles.go:319-360 | What a plan says of a document: nothing can be said if it does not decode, a creation if nothing is stored or its host is unknown, otherwise an update exactly when it differs, where missing labels count as different. |
| BundleModel.SameTextIff | internal/bundle/bundle.go:120-126 | Identity strings agree exactly for the same thing or for two services whose host and name join to the same text. |
| BundleModel.Validate | internal/bundle/bundle.go:128-146 | Reports nothing if and only if identities are distinct, services name a host, and names hold no newline or tab. |
| BundleModel.ReadBundle | internal/api/bundles.go:229-245 | An upload is read exactly when its kinds are known, its names are there, and validation reports nothing. |
| BundleModel.OrderedIsStableSort | internal/api/bundles.go:490-495 | Sorting keeps the documents, orders them by kind and keeps the order within each kind. |
| BundleApi.Api.ApplyBundle | internal/api/bundles.go:476-521 | Plans, applies in kind order, stops at the first failure, and prunes what the plan scheduled before: the store is the one the run functions give. |
| BundleApi.Api.ComputePlan | internal/api/bundles.go:247-315 | Creations, updates and deletions in that order; every scheduled deletion once and exactly the unwanted exported entries the selector matches. |
| BundleApi.Api.ApplyDoc | internal/api/bundles.go:531-608 | One document applied step by step has the outcome and leaves the store that `BundleOutcomes.OutcomeMeans` and `BundleOutcomes.WrittenIsAccepted` describe. |
| BundleApi.Api.DeleteByPlan | internal/api/bundles.go:610-636 | Deletes one entry, cascading from hosts, and fails when it or its host is gone. |
| BundleApi.Api.ExportBundle | internal/api/bundles.go:638-722 | Lists every entry except roles exactly once. |
| BundleApi.DocDiff | internal/api/bundles.go:415-452 | The difference loop finds exactly the managed fields that differ. |
| BundleApi.SpecDiff | internal/api/bundles.go:388-407 | The difference loop finds exactly the fields that differ. |
| BusinessTree.EvaluateTree | internal/api/business.go:150-193 | For any parent links, cycles included: terminates and evaluates exactly the services whose parent chain ends at a root, each once. |
| BusinessTree.GradesAreUnique | internal/api/business.go:171-193 | The grading equations have one solution on those services, so evaluation order cannot matter. |
| BusinessTree.GradingIsMonotone | internal/api/business.go:171-276 | With shape and rules fixed, improving leaves never worsens any ancestor, at any depth and for mixed rules. |
| BusinessTree.ImprovementShows | internal/api/business.go:150-276 | Of two evaluated trees over the same services, the one with the better leaves shows every rooted service in a state that is no worse. |
| BusinessTree.AggregateIsMonotone | internal/api/business.go:225-276 | One aggregation never gets worse when no input does. |
| BusinessTree.ExtremeRanks | internal/api/business.go:236-262 | The worst rule gives the highest rank among the inputs, the best rule the lowest. |
| BusinessTree.Aggregate | internal/api/business.go:225-262 | Unknown (3) for no states. Worst and weighted: one of them up to severity, none more severe, in the order OK, warning, unknown, critical; best: one of them, none less severe; quorum: OK exactly when at least the percentage, 50 if not positive, are OK, otherwise critical. |
| BusinessMeaning.NodeMeans | internal/api/business.go:157-223 | An evaluated tree, node by node: each rooted service has as children the services that name it, in list order; its state obeys its rule over the states its children show, or over the known states of its objects; and it shows the first five causes of its children, or of its objects. |
| BusinessMeaning.LeavesJoin | internal/api/business.go:197-223 | A leaf's states and causes are collected object by object, in order; `OneLeaf` says what one object contributes. |
| BusinessMeaning.KidsAreInOrder | internal/api/business.go:157-170 | The children of a service are the services of the list that name it as parent, each once and in the order of the list. |
| BusinessTree.PathToIsUnique | internal/api/business.go:157-192 | A service has at most one chain to a root. |
| BusinessTree.PathFits | internal/api/business.go:157-192 | Such a chain passes no service twice, so it is no longer than the list. |
| BusinessTree.SiblingsAreApart | internal/api/business.go:171-192 | Subtrees of siblings share no service, so nothing is evaluated twice. |
| BusinessTree.Eval | internal/api/business.go:171-188 | Grades a node and everything below it, each node once, and leaves the rest alone. |
| BusinessTree.Build | internal/api/business.go:157-170 | The linking loop gives every node exactly its children and collects the roots in list order. |
| Sla.ObjectDowntime | internal/api/business.go:394-440 | Equals the measure of the instants charged, and lies between 0 and the window's length. |
| Sla.SpellIsState | internal/api/business.go:410-431 | In a time-ordered history a bad spell means the latest hard event is non-OK, OK before the first. |
| Sla.InDowntime | internal/api/business.go:375-391 | The minute loop measures the covered part of an interval as probed once a minute. |
| Sla.ExactForEveryHistoryIffAligned | internal/api/business.go:343-440 | Charging is exact for every history if and only if downtimes change only on minute marks. |
| Sla.AlignedIsExact | internal/api/business.go:343-440 | For aligned downtimes the result is the measure of non-OK instants outside every downtime. |
| Sla.FixedOnMinutesIsAligned | internal/model/maintenance.go:36-53 | One-off downtimes whose ends are minute marks are aligned. |
| Sla.CoverIsAnyConcerningDowntime | internal/api/business.go:343-373 | The downtimes picked for an object cover an instant exactly when some downtime concerning it is active. |
| Sla.SumVersusUnion | internal/api/business.go:296-318 | The sum of the leaves' downtimes is at least the union's, and equal only without overlap. |
| Sla.ReportedIsUnionIff | internal/api/business.go:296-323 | The reported downtime is the union exactly when leaves never overlap or the union fills the window. |
| Sla.NamedAndSelectedCountsTwice | internal/api/business.go:281-291 | An object a service both names and selects is counted twice, so its downtime is reported doubled while the window leaves room. |
| Sla.Availability | internal/api/business.go:280-328 | The capped sum over the service's objects of their downtime less the tenant's downtimes that concern each, and the percentage in [0, 100] that belongs to it. |
| Sla.ObjectDownIsUnexcused | internal/api/business.go:343-440 | With downtimes that change on minute marks, an object's downtime is the time it is not OK while no downtime that concerns it is active. |
| SlaMeaning.ActiveFor | internal/model/maintenance.go:36-53 | A one-off downtime is active from its start for exactly its length, a flexible one for its duration from when it was triggered, the end excluded; an untriggered one never is (`UntriggeredIsNever`). |
| SlaMeaning.ConcernsMeans | internal/api/business.go:343-373 | Whom a downtime concerns: its object and, if that is a host, the host's services, whatever its selector says; without an object whom the selector matches, and nobody without either. |
| SlaMeaning.StateMeans | internal/api/business.go:410-431 | An object is in the state its latest hard event announced, and OK before the first. |
| SlaMeaning.SpellMeans | internal/api/business.go:410-431 | After its events an object is in an outage if and only if one began and has not ended, and the outage is counted from the first bad event, not from later ones. |
| Espa.SessionAnswersItems | internal/espa/espa444.go:63-99 | The session answers item by item and in order; no block, whatever its check byte, disturbs what follows. |
| Espa.EveryStreamIsItems | internal/espa/espa444.go:63-123 | Every byte stream is a list of items and a tail, so that describes every session. |
| Espa.ServeEspa | internal/espa/espa444.go:63-99 | The receive loop produces exactly the session's replies and events. |
| Espa.ReadBlock | internal/espa/espa444.go:101-123 | Reads up to and including ETX and the check byte, or reports a truncated or oversized block. |
| Espa.OneByteChangesXor | internal/espa/espa444.go:125-133 | Replacing one byte by a different one always changes the check. |
| Espa.XorBcc | internal/espa/espa444.go:127-133 | The loop computes the exclusive or of all bytes. |
| Espa.CorruptBlockIsRefused | internal/espa/espa444.go:79-133 | A block in which one payload byte is replaced, not by ETX, is answered NAK and emits nothing. |
| Espa.CallIsDelivered | internal/espa/espa444.go:63-217 | Records sent as a call come back as one event carrying exactly those records, acknowledged once. |
| EspaMeaning.BlockMeans | internal/espa/espa444.go:139-196 | A block with an STX becomes an event exactly when it ends with ETX and its header asks for a call (its last byte above a blank is '1', or there is none); the event is that of the records in between. Without an STX there is none (`NoTextNoEvent`). |
| EspaMeaning.CallMeans | internal/espa/espa444.go:155-187 | What a call's event carries: critical for priority 1, warning for 2, otherwise the source's default; the display text cut to length, or "ESPA call" and the address; the four labels exactly of the records that are there and not empty; and all records. |
| EspaMeaning.TypedIs | internal/espa/espa444.go:200-217 | A piece is typed exactly when more than white space comes before its first unit separator; its key is that text trimmed, its value everything after it, in UTF-8. |
| EspaMeaning.RecordsMean | internal/espa/espa444.go:200-217 | A key is in the records exactly when some piece between record separators types it. |
| EspaMeaning.TrimMeans | internal/espa/espa444.go:208-208 | Trimming takes the white space around a text and nothing else. |
| EspaMeaning.CharMeans | internal/espa/espa444.go:236-242 | A Latin-1 byte becomes itself or the two UTF-8 bytes that carry its eight bits. |
| EspaMeaning.RepliesMean | internal/espa/espa444.go:63-99 | The replies byte by byte: 0x06 to a poll 0x05, nothing to other bytes between blocks, 0x06 or 0x15 to a block as its check byte says, and an event only for an acknowledged one. |
| Espa.ParseUndoesEncode | internal/espa/espa444.go:198-217 | Parsing undoes encoding for every list of sendable records; US may occur in values. |
| Espa.AsMapIsExact | internal/espa/espa444.go:198-217 | With distinct keys the parsed map holds every record sent and nothing else. |
| Espa.LastPieceWins | internal/espa/espa444.go:198-217 | A key maps to the value of the last piece typed with it. |
| Espa.ParseRecords | internal/espa/espa444.go:200-217 | The splitting loop collects exactly the typed pieces. |
| Roles.ExpansionIsComplete | internal/auth/auth.go:206-229 | When no simple include path of references exceeds eight edges, exactly the reachable references contribute. |
| Roles.ExpansionIsSound | internal/auth/auth.go:206-229 | Every contributing reference loads, is reachable, and contributes once. |
| Roles.RolesContributeOnceIff | internal/auth/auth.go:213-222 | A stored role contributes at most once if and only if no two references the walk tries load the same role. |
| Roles.NearRolesContributeOnce | internal/auth/auth.go:209-222 | In any graph it is enough that no two references within eight includes of a grant load the same role. |
| Roles.ShallowRolesContributeOnceIff | internal/auth/auth.go:213-222 | In a graph without long simple paths: if and only if no two reachable references load the same role. |
| Roles.NamedRolesContributeOnce | internal/auth/auth.go:213-222 | Where reachable references are names, each stored role contributes at most once, in any graph. |
| Roles.NameAndIdContributeTwice | internal/storage/resources.go:221-228 | A role granted by name and by identifier returns its permissions twice. |
| Roles.ExpansionStaysNear | internal/auth/auth.go:209-212 | Whatever contributes is at most eight includes away from a grant, so a role all of whose paths are longer is always lost. |
| Roles.CompletenessIsBracketed | internal/auth/auth.go:206-229 | No long simple path implies that every reachable reference contributes, which implies that each is within eight includes. |
| Roles.OrderDecides | internal/auth/auth.go:213-225 | The same two grants in the two orders: one expansion loses a role the other finds. |
| Roles.AliasesLoseNearRoles | internal/auth/auth.go:209-225 | Roles that include their own identifier use up the depth: a role five includes away from the only grant is lost. |
| Roles.WalkIsComplete | internal/auth/auth.go:208-227 | In a graph without long simple paths the walk leaves no offered reference unseen, whatever was seen before. |
| Roles.PermissionsComeFromRoles | internal/auth/auth.go:220-222 | A permission is returned exactly when some contributing role grants it. |
| Roles.ChainIsCut | internal/auth/auth.go:209-212 | In any chain the roles from the tenth on are reachable and contribute nothing. |
| Roles.ChainReachesNine | internal/auth/auth.go:209-212 | In a chain of ten roles or more the first nine contribute, in order, and nothing else does. |
| Roles.LoadMeans | internal/storage/resources.go:221-228 | A name wins over an identifier, and what does not decode does not load. |
| Roles.NearbyRoleIsLost | internal/auth/auth.go:209-216 | The tenth contributes nothing even when it is one include away from a second grant. |
| Roles.RolePerms | internal/auth/auth.go:206-229 | The recursive closure returns the permissions of the expanded references in order. |
| Anomalies.DetectAnomalies | internal/ai/stats.go:80-118 | Returns, in order, exactly the samples in long enough runs, a run reaching the end included. |
| Anomalies.FlaggedIsExact | internal/ai/stats.go:82-118 | A sample is reported if and only if it lies in a run of at least minRun deviating samples. |
| Anomalies.CloseBlock | internal/ai/stats.go:94-117 | Flushing a maximal run settles all its samples at once. |
| StatsMeaning.DeviatesMeans | internal/ai/stats.go:82-118 | A sample deviates when it is more than k scales above or below what is expected; the scale is the median deviation, or the standard deviation if that is next to nothing; its direction and ratio are those of the gap. |
| StatsMeaning.ExpectedMeans | internal/ai/stats.go:64-69 | The expected value is that of the sample's hour and weekday if the table is complete, otherwise the mean. |
| StatsMeaning.SlotMeans | internal/ai/stats.go:64-69 | The row of an instant is seven times its hour plus its weekday, Sunday first; day zero of Unix time is a Thursday. |
| Forecasting.ComputeForecast | internal/ai/stats.go:148-208 | The forecast is that of the least-squares line with R² in [0, 1], zero residual sum and the right crossing time, for every series. |
| Forecasting.NormalLineIsBest | internal/ai/stats.go:164-182 | The fitted line minimises squared error over all lines, by exactly the squared gap, and its residuals sum to zero. |
| Forecasting.BestLineIsUnique | internal/ai/stats.go:164-182 | As soon as two samples differ in time there is one least-squares line. |
| Forecasting.DenominatorIsPairSpread | internal/ai/stats.go:175-178 | The denominator is a sum of squares over pairs of samples, so it is never negative. |
| StatsMeaning.ForecastMeans | internal/ai/stats.go:158-208 | In hours and values: the least-squares line is at the projected value at the last sample and rises by the slope an hour; a hit is that line meeting the threshold within 8760 hours after the last sample. |
| StatsMeaning.HoursMean | internal/ai/stats.go:158-170 | A sample's abscissa is the hours from the first sample to it, 3,600,000 milliseconds each. |
| RateLimit.AcceptedIffEveryWindowFits | internal/api/ingress.go:35-57 | A call is accepted if and only if it fits the allowance of every window that ends with it. |
| RateLimit.WindowBound | internal/api/ingress.go:35-57 | Between instants a and b, in seconds, at most burst + rate * (b - a) calls are accepted. |
| RateLimit.LimitsMean | internal/api/ingress.go:35-41 | Limits that are not positive stand for 50 a second and a burst of 200. |
| RateLimit.SpacedCallsAreNeverRefused | internal/api/ingress.go:35-57 | A source that waits 1/rate between calls is never refused. |
| RateLimit.TokensAreLeastHeadroom | internal/api/ingress.go:35-57 | The bucket holds the smallest headroom over all windows, and some window attains it. |
| RateLimit.Limiter.AllowRate | internal/api/ingress.go:22-57 | One call extends its source's log with the greedy verdict and leaves every other source's bucket alone. |

## Left out

- HTTP handlers, routing, rendering, agents, CLIs, installers, LLM adapters, cryptography, OIDC, sockets, telephony and probes: input and output with little state.
- SQL storage: replaced by maps keyed by natural keys; identifiers of hosts and services in bundles are those keys, so foreign keys become "the host is there".
- Store write failures and crashes in the middle of an operation, except failed StartChain and failed alert writes in `Alerting`.
- Catalog: tenants with more than 2000 templates, commands or periods, which the store lists only up to that number; specification fields the index does not read (intervals, contacts, flap thresholds and so on) merge like the modelled ones.
- Catalog: services whose host is missing; `RelinkingIsIdempotentIff` says exactly what happens then.
- Catalog.RunEqualsRebuild: objects never change tenant, as the store's update guarantees, and configuration changes only with a reload, as the cache intends.
- Escalation: policies are looked up by the reference that loads them, name or identifier alike; choosing and contacting targets, time periods of contacts, and audit records; a failed alert lookup, which leaves its timer due; and restarts after a snooze.
- Alerting.Engine.NoPageIsLost: speaks of chains this engine starts when alerts open or when suppression lifts; the restart when a snooze ends is not part of the model.
- Escalation.Engine.RunOnce: speaks of alerts whose polled timers name one policy; timers armed under two policies by a restart are fired one by one as `Fire` says.
- Alerting: compiling rules, rendering keys and titles (given functions), incidents, when a heartbeat source counts as silent and which alerts close automatically (both arrive as inputs), and the loss of in-memory maps when the process restarts; between reading a held alert and starting its chain no other writer interleaves.
- Bundles: YAML and JSON encoding, the details of a diff inside a plan action, apply tokens, audit, concurrent writers between plan and apply, and folder exports. Decoding, object checks and document checks are parameters; a document check depends on the document alone.
- BundleRuns.SecondApplyIff: assumes that decoding an encoded specification gives it back.
- Business tree: the final sort of the roots by name, SQL and event access when reading leaf states, and services beyond the first 2000, which the store does not list.
- Sla: evaluating recurrence rules (given), events that do not come in time order, failures while loading events or downtimes, and the 1000-event limit of the event query.
- Roles.ExpansionIsComplete: sufficient only, and counts references; `CompletenessIsBracketed`, `OrderDecides` and `AliasesLoseNearRoles` say what lies beyond it.
- Roles: the store's table is given as its rows by name and the name of each identifier; decoding a role document is a given outcome.
- Espa: configuration reload, listener management and publishing of events.
- Statistics: `ComputeBaseline`, adaptive thresholds, quantiles and square roots; rounding of floats and of the crossing time's conversion.
- RateLimit: eviction of idle buckets is not part of the source, and locking is modelled as one call at a time.
