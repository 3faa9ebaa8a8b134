# Verified model of OpenLIT's stateful parts

A Dafny model of the parts of OpenLIT in which correctness depends on more than one function: the OpAMP
server's exchange with its agents, the operator's pod injector, organisation membership in the client, and
three smaller machines (the webhook's circuit breaker, the Go SDK's stream readers, and its latency estimates).
`dafny verify dfyconfig.toml` checks all of it.

Objects whose methods change fields are classes, and each method is proved against a function on values
(`AgentSpec`, `RegistrySpec`, `InjectorSpec`, `OrganisationDb`). The main results are theorems about those
functions, over every run.

| files | what they hold |
|---|---|
| `Wrappers`, `Sets` | optional values, facts about finite sets |
| `Protobufs`, `AgentSpec`, `Agent` | the messages; the server's record of one agent, as a value and as an object |
| `OpampProtocol`, `OpampLimits`, `OpampConvergence` | agent and server under lost reports and pushes, reordered responses and configs, edits and disconnects; where reconstruction stops; how far configs converge |
| `RegistrySpec`, `OpampServer` | the registry, its connection index, the saved configs, and the handlers |
| `SavedConfigs` | registry and protocol together: a saved config up to the agent that applies it |
| `StatusWatchers`, `WatcherPromise` | the one-shot watchers under every interleaving; what a wake-up tells about the agent |
| `GoStrings`, `InjectorSpec`, `InjectorLaws`, `Injector` | selection, injection, recovery; what they mean for a pod and its annotations |
| `OrganisationDb`, `OrganisationRuns`, `OrganisationLaws`, `Organisations` | the tables and operations, what every run keeps, the laws of membership, and the library's methods |
| `CurrentConfigs` | when runs keep at most one current config for each user and organisation |
| `CircuitBreaker` | the breaker, the retry loop, and many calls at once |
| `Streams`, `EventStreams`, `Latency` | event-stream parsing (`Streams`), delivery through the channel (`Delivery`), comparison with the standard, latency estimates |

## What the proofs found

- The ReportFullState flag is computed from consecutive sequence numbers only. A report that overtakes a flag on its
  way is answered without one even if the entry is stale (`OpampLimits.FlagOvertaken`). That an answer without the
  flag means the entry is in step is guaranteed if and only if no flag was underway when the report arrived
  (`UnflaggedMeansInStepExactlyWhen`), and an up-to-date entry is guaranteed to be in step if and only if no full
  report is due (`UpToDateMeansInStepExactlyWhen`).
- A report after a loss that carries everything except its description is not taken to be compressed, so the
  server asks for nothing and keeps the old description (`DescriptionCanStayStale`). Descriptions are reconstructed in
  every run without such a report (`DescriptionReconstruction`), and for each single report
  `DescriptionKeptExactlyWhen` gives the exact condition.
- Package statuses count towards the test for a compressed report, but are stored with an entry's first report only.
  They are in step exactly as long as they are those of that report (`PackagesInStepExactlyWhen`), and a full
  report does not bring them (`FullReportDoesNotRestorePackages`).
- `SendToAgent` drops the error of a failed push, and an agent's connection is fixed when its entry is created, so a
  push can be lost while the entry lives (`OpampConvergence.LostPushStaysUnapplied`). With the last report answered
  without flag and config and no flag underway, and no config received since, the agent holds the current config if and
  only if the custom text has not changed since that report (`OpampProtocol.ConvergedWhenQuiet`), even if later reports
  were lost. The condition on the flag is exact (`OpampConvergence.NoConfigMeansAppliedExactlyWhen`): a flagged answer
  can leave an agent with another config and nothing in flight (`FlaggedStaysUnapplied`). The next report with a config
  status repairs it (`OpampProtocol.ExchangeConverges`), and once nothing is in flight one such report is enough for
  good (`DrainedRunsConverge`).
- A config loaded from disk is sent only once the agent has reported a config status
  (`AgentSpec.ConfigSentExactlyWhen`): an agent that never does is not sent its saved config.
- `handleSaveConfig` names the file as the request spells the id, and `loadPersistedConfig` looks for the
  canonical spelling. `RegistrySpec.SaveKeepsFilesExactlyWhen` says when they agree; a save under an upper-case id is
  lost when the agent reconnects (`UpperCaseSaveIsLost`).
- The comment on `SetCustomConfig` says that the channel is notified after the agent has applied the config and
  reported it. The code notifies at the next report of any kind, also at one that overtakes the push
  (`WatcherPromise.WokenBeforeApplied`). When that report is answered without the flag and none is underway, the agent
  has applied the current config if and only if the response carries no config (`WokenMeansAppliedExactlyWhen`), which
  the server could test before it wakes anyone. When an unchanged edit wakes its channel at once, after a report
  answered in step, the agent has applied the text if and only if it was the text at that report
  (`WokenAtOnceMeansAppliedExactlyWhen`).
- `cleanupPartialInstrumentation` resets copies of the containers, so it would not restore a pod in which a
  container was instrumented (`InjectorSpec.PartialCleanupRestoresExactlyWhen`). It is never chosen: every error
  path has an instrumented count of zero.
- Injecting an injected pod always reports an error, and changes nothing (`InjectorSpec.SecondInjectionFails`).
- A run leaves the breaker's `Open` state if and only if it contains an `attempt` after the reset timeout, and closes it
  if and only if a success follows one with no failure between (`CircuitBreaker.LeavesOpenExactlyWhen`,
  `ClosesExactlyWhen`). The retry loop asks `canExecute`, so a breaker that has opened stays open
  (`OpenForeverWithoutAttempt`). Nothing but the unit tests calls `attempt`, nor the retry loop itself.
- At most one config is current for a user in an organisation, except that creating an organisation moves all orphaned
  configs into it, current or not: an operation keeps the property if and only if it does not move two current ones of
  a user (`CurrentConfigs.OneCurrentKeptExactlyWhen`). Deleting organisations leaves such orphans
  (`DetachedConfigsCollide`).
- The stream readers take a data field only with a space after its colon, and each as an event of its own. Section
  9.2.6 of the WHATWG HTML Standard allows the field without the space and joins several into one event. The
  two agree, after every complete event, if and only if each event has at most one data field and that has the space
  (`EventStreams.AgreesWithStandardExactlyWhen`).

## Model

| member | source | states |
|---|---|---|
| AgentSpec.MergeRefinesLastValues | src/opamp-server/data/agent.go:147-239 | After any run with a report, description, health, config status and config map are the last values carried, the sequence number is the last, capabilities and package statuses are the first report's |
| AgentSpec.DisplayShowsLastMap | src/opamp-server/data/agent.go:220-239 | The displayed config is the bodies of the last reported config map in some order, or empty |
| AgentSpec.DisplayShowsEveryFile | src/opamp-server/data/agent.go:220-239 | Every file's body is in the display, and a single file is the display |
| AgentSpec.StartRefinesLastHealthy | src/opamp-server/data/agent.go:187-197 | The start time is that of the last report of good health |
| AgentSpec.SettingsOfferedExactlyWhen | src/opamp-server/data/agent.go:277-285 | Connection settings come with the first report and with each description that is not the last one |
| AgentSpec.RunKeepsAgreement | src/opamp-server/data/agent.go:308-377 | In every reachable state the remote config held is absent or carries the last edited text under its own hash, and it is present once a report is stored, so the hash comparison never follows nil |
| AgentSpec.ConfigSentExactlyWhen | src/opamp-server/data/agent.go:277-296 | When a response carries the config, both directions, and that it then is the current custom config |
| AgentSpec.EveryConfigDelivers | src/opamp-server/data/agent.go:348-377 | In every run a config held, sent or pushed has exactly one file, unnamed and untyped, with the custom text of that moment |
| AgentSpec.DeliversExactlyWhen | src/opamp-server/data/agent.go:348-377 | Only one config delivers a text under its hash |
| OpampProtocol.StatusReconstruction | src/opamp-server/data/agent.go:245-299 | Under loss and reordering, in every reachable state: answered without a flag and none underway, or up to date with no full report due, means that health, config status and effective config are the agent's |
| OpampProtocol.OnlyConfigsOfTexts | src/opamp-server/data/agent.go:348-377 | In every reachable state whatever is in flight to the agent, held for it or applied by it is one text in one file under its hash, and what is held is the current text |
| OpampProtocol.FullReportRecovers | src/opamp-server/data/agent.go:253-276 | After the flag reached the agent, the next report, if delivered, is not flagged and brings the server in step |
| OpampProtocol.ConvergedWhenQuiet | src/opamp-server/data/agent.go:277-377 | After a report answered without flag and config, none underway and no config received since, the agent holds the current config if and only if the text is unchanged since, which holds with no push in flight or lost; reports lost since do not matter |
| OpampProtocol.ExchangeConverges | src/opamp-server/data/agent.go:277-377 | Whatever was lost or is in flight, one report with a config status and its response give the agent the current config |
| OpampProtocol.ConvergesInTwoExchanges | src/opamp-server/data/agent.go:277-377 | From any reachable state one exchange with a config status delivers the current config and the next one confirms it |
| OpampProtocol.CanAlwaysReport | src/opamp-server/data/agent.go:245-299 | No run gets stuck: a full report can always be delivered |
| OpampLimits.FlagOvertaken | src/opamp-server/data/agent.go:253-276 | For any tested capability and any two states of the agent, a reachable one in which the last answer has no flag and the entry holds the old fields |
| OpampLimits.UnflaggedMeansInStepExactlyWhen | src/opamp-server/data/agent.go:253-276 | An answer without the flag guarantees an entry in step if and only if no flag was underway when the report arrived |
| OpampLimits.UpToDateMeansInStepExactlyWhen | src/opamp-server/data/agent.go:253-276 | An entry with the latest report is guaranteed to be in step if and only if no full report is due |
| OpampConvergence.DrainedRunsConverge | src/opamp-server/data/agent.go:277-377 | From any reachable state with nothing in flight, one exchange with a config status gives the agent the current config, and it keeps it in every run without edits and disconnects |
| OpampConvergence.DrainedEndsInStep | src/opamp-server/data/agent.go:277-296 | The exchange after that is answered in step, with nothing in flight |
| OpampConvergence.Drains | src/opamp-server/data/agent.go:308-343 | From any reachable state what is in flight can all arrive |
| OpampConvergence.AnswerTellsApplied | src/opamp-server/data/agent.go:277-296 | An unflagged answer with no flag underway carries no config if and only if the agent held the current one |
| OpampConvergence.NoConfigMeansAppliedExactlyWhen | src/opamp-server/data/agent.go:253-296 | An answer without a config guarantees that the agent holds the current one if and only if it has no flag and none was underway |
| OpampConvergence.FlaggedStaysUnapplied | src/opamp-server/data/agent.go:253-296 | A reachable state after a flagged answer without a config, nothing in flight, in which the agent holds another config |
| OpampConvergence.LostPushStaysUnapplied | src/opamp-server/data/agent.go:443-445 | A lost push leaves a quiet, answered agent without the current config |
| OpampLimits.DescriptionKeptExactlyWhen | src/opamp-server/data/agent.go:255-275 | A report keeps descriptions in step if and only if it does not hide its description after a loss, or the hidden one is the one stored, or a flag is underway |
| OpampLimits.DescriptionReconstruction | src/opamp-server/data/agent.go:255-275 | Runs without such a report reconstruct descriptions |
| OpampLimits.DescriptionCanStayStale | src/opamp-server/data/agent.go:255-275 | For any capabilities and any two descriptions, a reachable quiet state in which the server keeps the stale one |
| OpampLimits.PackagesInStepExactlyWhen | src/opamp-server/data/agent.go:206-217 | Over every run while an entry lives, its package statuses are in step if and only if its first report carried them and the agent's are still those |
| OpampLimits.PackagesFrozen | src/opamp-server/data/agent.go:206-217 | No run changes them while the entry lives |
| OpampLimits.FullReportDoesNotRestorePackages | src/opamp-server/data/agent.go:253-276 | A reachable state after the flag and a full report in which the entry has no package statuses |
| Agent.NotifyStatusWatchers | src/opamp-server/data/agent.go:137-145 | Every watcher gets a signal for each time it is listed, as far as its buffer has room |
| Agent.IsEqualConfigSet | src/opamp-server/data/agent.go:389-419 | The file-by-file comparison decides equality of config maps |
| Agent.Agent.constructor | src/opamp-server/data/agent.go:62-83 | A new agent has no status, no config and no watcher |
| Agent.Agent.UpdateStatus | src/opamp-server/data/agent.go:116-135 | The whole new state and response, every watcher woken, none left waiting, no config in memory changed; it is one path of `StatusWatchers` |
| Agent.Agent.ProcessStatusUpdate | src/opamp-server/data/agent.go:245-299 | State and response refine the merge of `AgentSpec` and keep the agent's invariant |
| Agent.Agent.StatusIsCompressed | src/opamp-server/data/agent.go:257-271 | Whether the report omits a field the stored capabilities promise |
| Agent.Agent.OfferRemoteConfig | src/opamp-server/data/agent.go:277-296 | When the config is recomputed and when the response carries it |
| Agent.Agent.UpdateAgentDescription | src/opamp-server/data/agent.go:147-185 | The new stored status, and whether the description is new |
| Agent.Agent.UpdateHealth | src/opamp-server/data/agent.go:187-197 | Health replaced if carried, start time taken from a healthy one |
| Agent.Agent.UpdateRemoteConfigStatus | src/opamp-server/data/agent.go:199-204 | Config status replaced if carried |
| Agent.Agent.UpdateStatusField | src/opamp-server/data/agent.go:206-217 | The three updates together are one merge |
| Agent.Agent.UpdateEffectiveConfig | src/opamp-server/data/agent.go:220-239 | A config map is stored and displayed in whatever order it is iterated; a report without one changes nothing |
| Agent.Agent.SetCustomConfig | src/opamp-server/data/agent.go:308-343 | A changed config is pushed once and the channel, if any, waits; an unchanged one wakes the channel and pushes nothing; no config in memory changes; it is one path of `StatusWatchers` |
| Agent.Agent.CalcRemoteConfig | src/opamp-server/data/agent.go:348-377 | A new object with the config of the custom text and its hash; "changed" exactly when it differs from the one held |
| RegistrySpec.Canonical | src/opamp-server/data/agents.go:106 | Parsing and printing an id lowers each hexadecimal digit and nothing else |
| RegistrySpec.RunKeepsIndex | src/opamp-server/data/agents.go:30-38 | In every run the connection index is exactly the inverse of each agent's connection, with no empty set |
| RegistrySpec.DisconnectRemovesExactly | src/opamp-server/data/agents.go:30-38 | A disconnect removes exactly the agents created on the connection and leaves every other entry unchanged |
| RegistrySpec.RunKeepsFiles | src/opamp-server/data/agents.go:105-151 | In every run with canonical ids each live agent's custom config is its saved file, or empty without one |
| RegistrySpec.PrintedIsCanonical | src/opamp-server/data/agents.go:106 | The printed form of any 16 bytes is a well-formed id and is read back as itself |
| RegistrySpec.PrintedIsInjective | src/opamp-server/data/agents.go:106 | Different bytes are printed differently |
| RegistrySpec.SaveGoesThroughExactlyWhen | src/opamp-server/server/ui.go:139-214 | A save for a live agent under its id goes through if and only if the text is empty or a YAML object; the file holds it or is gone, the agent has it, nothing else changes |
| RegistrySpec.SaveRefusals | src/opamp-server/server/ui.go:115-137 | What is no id, and an id no agent has, is refused as such and changes nothing |
| RegistrySpec.SaveKeepsFilesExactlyWhen | src/opamp-server/server/ui.go:103-214 | A save keeps that agreement if and only if it is refused, spells the id canonically, or saves what the file held |
| RegistrySpec.MisspelledSaveIsForgotten | src/opamp-server/server/ui.go:204 | After an accepted save under another spelling and a reconnect, the agent has what the canonical file held |
| RegistrySpec.UpperCaseSaveIsLost | src/opamp-server/data/agents.go:106 | A concrete upper-case id whose accepted save is gone after a reconnect |
| RegistrySpec.SavedConfigSurvives | src/opamp-server/server/ui.go:139-214 | Save or clear, then any run of disconnects, reconnects, restarts and other agents' actions: the agent's entry has exactly the saved text and its remote config carries it |
| SavedConfigs.ActionIsStep | src/opamp-server/server/server.go:172-208 | Each action of the server is one step of the protocol for the agent it concerns, loading from its file, and none for any other |
| SavedConfigs.SavedConfigReachesAgent | src/opamp-server/server/ui.go:139-214 | Save, any such run, then a report with a config status on whatever connection: the agent applies exactly the saved text, and the next response confirms it |
| OpampServer.Agents.RemoveConnection | src/opamp-server/data/agents.go:30-38 | Refines the disconnect of `RegistrySpec` and keeps every remaining agent valid |
| OpampServer.Agents.FindOrCreateAgent | src/opamp-server/data/agents.go:81-103 | Finds the agent, or creates it with its saved config and indexes it |
| OpampServer.Agents.LoadPersistedConfig | src/opamp-server/data/agents.go:105-151 | Loads a YAML object, deletes any other file, leaves the agent alone without a file |
| OpampServer.Agents.UpdateAgentStatus | src/opamp-server/server/server.go:198-201 | A report changes its own agent only |
| OpampServer.Agents.SetCustomConfigForAgent | src/opamp-server/data/agents.go:40-49 | An edit changes its own agent only, pushes exactly when it must, and is dropped for an unknown id |
| OpampServer.OnMessage | src/opamp-server/server/server.go:176-208 | A message is one step of `RegistrySpec`, answered by the reply of `AgentSpec`; an unusable uid changes nothing; a config already placed in a message never changes |
| OpampServer.OnDisconnect | src/opamp-server/server/server.go:172-174 | A disconnect is one step of `RegistrySpec` |
| OpampServer.HandleSaveConfig | src/opamp-server/server/ui.go:103-214 | Accepted if and only if the id is well-formed and live and the text is empty or a YAML object; then the file is written or gone, the agent has the text and is pushed it if it is another one, and the request is answered at once if not; a config already placed in a message never changes |
| StatusWatchers.EachWokenAtMostOnce | src/opamp-server/data/agent.go:128-145 | In every interleaving each channel is in exactly one place once, so it is woken at most once |
| StatusWatchers.WokenExactlyOnce | src/opamp-server/data/agent.go:308-343 | Once nothing is due, a channel has been woken exactly once if the edit changed nothing or a report followed, and not at all otherwise |
| StatusWatchers.ReportIsPath | src/opamp-server/data/agent.go:128-145 | A report with the wake-ups after it is one path of the interleaved machine |
| StatusWatchers.EditIsPath | src/opamp-server/data/agent.go:308-343 | So is an edit, with its wake-up if it changed nothing |
| WatcherPromise.WokenMeansAppliedExactlyWhen | src/opamp-server/data/agent.go:301-307 | A waiting channel taken by an unflagged report, no flag underway: the agent has applied the current config if and only if the response carries none, and the stored effective config is the agent's |
| WatcherPromise.WokenAtOnceMeansAppliedExactlyWhen | src/opamp-server/data/agent.go:333-342 | A channel woken at once, after a report answered in step: the agent has applied the text if and only if it was the text at that report |
| WatcherPromise.WokenBeforeApplied | src/opamp-server/data/agent.go:301-307 | For any capabilities, a run in which the channel is woken and the agent has not applied the text |
| InjectorSpec.SelectionIsStable | operator/internal/injector/injector.go:1005-1210 | The variables and the mount added do not unselect a container |
| InjectorSpec.SecondInjectionFails | operator/internal/injector/injector.go:1381-1508 | After any first call a second injection has no target left |
| InjectorSpec.InjectionIsIdempotent | operator/internal/injector/injector.go:68-118 | A second injection leaves the spec exactly as the first left it, whether that one succeeded or failed |
| InjectorSpec.InjectionOnlyAdds | operator/internal/injector/injector.go:1251-1443 | One init container, at most one volume, and mount and variables appended to exactly the selected containers without that mount; all else unchanged |
| InjectorSpec.InstrumentingOnlyAdds | operator/internal/injector/injector.go:1446-1508 | A container gains one read-only mount and at least nine variables, the first being PYTHONPATH with the shared path in front |
| InjectorSpec.PartialCleanupRestoresExactlyWhen | operator/internal/injector/injector.go:1596-1638 | The partial cleanup would restore the spec if and only if no container had been instrumented |
| InjectorLaws.ChangedExactlyWhen | operator/internal/injector/injector.go:1005-1210 | A container is changed if and only if the pod can be injected, its wishes allow the container, it is no sidecar or utility, looks like Python and mounts no shared volume; stated on the lists as typed into the annotations |
| InjectorLaws.WishesAreObeyed | operator/internal/injector/injector.go:1007-1096 | A container excluded, not included, of another language or named like a sidecar is left exactly as it was |
| InjectorLaws.PlainPythonIsChanged | operator/internal/injector/injector.go:1150-1210 | An ordinary Python container of a pod without annotations is changed |
| InjectorLaws.SucceedsExactlyWhenChanged | operator/internal/injector/injector.go:68-118 | A call succeeds if and only if it changes the pod |
| InjectorLaws.ExportsAsConfigured | operator/internal/injector/injector.go:281-406 | A changed container sees the configured endpoint, headers and environment, and its own service identity, whatever it had before |
| InjectorLaws.DescribesItself | operator/internal/injector/injector.go:290-311 | Its resource attributes, read as a list, are these, with version and instance when known |
| InjectorLaws.SearchesSharedPathFirst | operator/internal/injector/injector.go:313-328 | The search path is the shared path, and then the path it had |
| InjectorLaws.OthersAreAsBefore | operator/internal/injector/injector.go:372-396 | The optional variables are set as configured, and it sees every other variable as before |
| InjectorLaws.PackagesAreInstalled | operator/internal/injector/injector.go:1251-1327 | The init container comes last, runs the install command in a shell from the right image, and may write to the shared directory |
| InjectorLaws.PackagesAreShared | operator/internal/injector/injector.go:1330-1508 | The pod has that volume, and each changed container reads from the same directory of it |
| InjectorLaws.CutBackUndoesInstrumenting | operator/internal/injector/injector.go:1411-1422 | Cutting back to the former counts undoes instrumenting |
| InjectorLaws.CleanedUpBy | operator/internal/injector/injector.go:1567-1593 | When a failure is undone as a whole and when it is left, by the count and what the error says |
| Injector.OpenLitInjector.InjectOpenLIT | operator/internal/injector/injector.go:68-118 | Atomic: an error leaves the spec as it was, and success changes exactly the containers that the pod's wishes and images select |
| Injector.OpenLitInjector.ExecuteWithRecovery | operator/internal/injector/injector.go:1215-1248 | Every error ends in a full rollback |
| Injector.OpenLitInjector.Operation | operator/internal/injector/injector.go:82-117 | Every phase that fails does so with an instrumented count of zero |
| Injector.OpenLitInjector.ValidateSecurityContext | operator/internal/injector/injector.go:866-1002 | Refuses read-only root filesystems and the restricted standard, nothing else |
| Injector.OpenLitInjector.AddInitContainerWithRecovery | operator/internal/injector/injector.go:1251-1327 | Appends the init container unless no image is configured |
| Injector.OpenLitInjector.AddSharedVolumeWithRecovery | operator/internal/injector/injector.go:1330-1378 | Adds the volume unless one of its name is there, and never fails |
| Injector.OpenLitInjector.ModifyContainersWithRecovery | operator/internal/injector/injector.go:1381-1443 | Instruments exactly the targets, counts some exactly when there are some, and fails only without any |
| Injector.OpenLitInjector.ModifyContainerWithRecovery | operator/internal/injector/injector.go:1446-1508 | Instruments one container, or fails on a mount of that name with the container unchanged |
| Injector.OpenLitInjector.RecordFailure | operator/internal/injector/injector.go:1397-1422 | Records the failure and cuts the container back to its counts |
| Injector.OpenLitInjector.PerformCleanupRecovery | operator/internal/injector/injector.go:1525-1593 | What each of the three strategies leaves, in the order they are tried |
| Injector.OpenLitInjector.CleanupPartialInstrumentation | operator/internal/injector/injector.go:1596-1638 | Init containers and volumes cleaned, containers left as they are |
| OrganisationRuns.EveryRun | src/client/src/lib/organisation.ts:93-1081 | Over every run: one owner membership per organisation and it is the creator's, at most one current organisation per user and one kept by whoever always belongs somewhere, access only for members |
| OrganisationRuns.OperationKeepsInv | src/client/src/lib/organisation.ts:93-1081 | Each operation, refused or not and with any choice of the database, keeps those invariants |
| OrganisationRuns.CurrentSurvives | src/client/src/lib/organisation.ts:642-695 | A user with a current organisation who still belongs to one after a step still has a current one |
| OrganisationRuns.AdminsFallOnlyByOwnerOrLeaving | src/client/src/lib/organisation.ts:587-806 | While the organisation exists an admin is removed or demoted only by the owner's operation on that admin, or leaves |
| OrganisationRuns.MigratedKeeps | src/client/src/lib/organisation.ts:930-1014 | A migration makes every sharer of a moved config a member, so access stays with members |
| OrganisationLaws.AdmissionLaw | src/client/src/lib/organisation.ts:93-569 | Whoever becomes a member created the organisation, shared a config its creation moved, was invited by an admin under the registered address, or had an invitation for the own address; only the creator comes in as owner |
| OrganisationLaws.AdmissionOverRuns | src/client/src/lib/organisation.ts:93-1081 | Over every run nobody is a member who was neither one before nor admitted on the way |
| OrganisationLaws.DismissalLaw | src/client/src/lib/organisation.ts:279-698 | A membership ends only by someone entitled to remove it, or with its organisation |
| OrganisationLaws.RoleLaw | src/client/src/lib/organisation.ts:754-821 | A role changes only as an admin or the owner says, an admin's only as the owner says, never to or from owner |
| OrganisationLaws.OrganisationLaw | src/client/src/lib/organisation.ts:93-343 | An organisation appears only as created, by its creator, and goes only by its creator when no other member is left |
| OrganisationLaws.InvitationLaw | src/client/src/lib/organisation.ts:348-569 | Who makes an invitation appear, and who makes it go |
| OrganisationLaws.AccessLaw | src/client/src/lib/organisation.ts:654-672 | Access is gained only with the membership, to view, and lost only with it or with the organisation; other rows keep their rights |
| OrganisationLaws.ConfigLaw | src/client/src/lib/organisation.ts:930-1014 | A config changes its organisation only as the creator's orphan or when the organisation is deleted |
| OrganisationLaws.CurrentLaw | src/client/src/lib/organisation.ts:200-343 | An organisation becomes current only by choice, as the oldest left in place of the one lost, or for a sharer who had none; it stops being so only by choice |
| OrganisationLaws.SetCurrentDoes | src/client/src/lib/organisation.ts:200-245 | A member's choice succeeds and is then the one current organisation of that user |
| OrganisationLaws.CreateDoes | src/client/src/lib/organisation.ts:93-121 | The new organisation, its owner, and no memberships but those of sharers |
| OrganisationLaws.CreateMoves | src/client/src/lib/organisation.ts:930-1014 | A creation succeeds if and only if the orphans differ in name; then all of them belong to it and every sharer is in |
| OrganisationLaws.DeleteDoes | src/client/src/lib/organisation.ts:279-343 | Deleting succeeds exactly for the creator as the only member, and what goes with it |
| OrganisationLaws.InviteDoes | src/client/src/lib/organisation.ts:348-434 | Inviting succeeds exactly for an admin or the owner and someone not yet in or invited, and what it does |
| OrganisationLaws.AcceptDoes | src/client/src/lib/organisation.ts:467-505 | Accepting succeeds exactly for the user of the address who is not in yet, and what it does |
| OrganisationLaws.WithdrawDoes | src/client/src/lib/organisation.ts:510-534 | Declining succeeds exactly for the user of the address, cancelling for an admin or the owner |
| OrganisationLaws.MoveDoes | src/client/src/lib/organisation.ts:539-569 | Every invitation of a new user's address becomes a membership with all configs |
| OrganisationLaws.RemoveDoes | src/client/src/lib/organisation.ts:574-698 | Who may remove whom, stated flat, and what is left |
| OrganisationLaws.UpdateRoleDoes | src/client/src/lib/organisation.ts:754-821 | Who may change whose role, and that nothing else changes |
| OrganisationLaws.NormalReads | src/client/src/lib/organisation.ts:478-484 | Addresses mean the same if they differ only in case and in space around them |
| OrganisationRuns.BulkSharing | src/client/src/lib/organisation.ts:1019-1081 | The user has every config of the organisation, and no row that existed changes |
| OrganisationRuns.BulkSharingCurrent | src/client/src/lib/organisation.ts:1019-1081 | A new row is current if and only if none was current before and it is the first, an oldest, of the missing configs; at most one stays current |
| CurrentConfigs.OneCurrentKeptExactlyWhen | src/client/src/lib/organisation.ts:93-1081 | An operation keeps at most one current config per user and organisation if and only if it does not move two current orphans of a user |
| CurrentConfigs.EveryRunKeepsOneCurrent | src/client/src/lib/organisation.ts:93-1081 | So does every run without such an operation |
| CurrentConfigs.DetachedConfigsCollide | src/client/src/lib/organisation.ts:930-1014 | Concrete tables that satisfy every invariant, and a delete and a create after which two are current |
| Organisations.Store.CreateOrganisation | src/client/src/lib/organisation.ts:93-121 | The tables after creation and migration; a failing migration leaves the organisation |
| Organisations.Store.SetCurrentOrganisation | src/client/src/lib/organisation.ts:200-245 | Exactly this membership of the user becomes current, for members only |
| Organisations.Store.DeleteOrganisation | src/client/src/lib/organisation.ts:279-343 | Only the creator, only without other members; the oldest remaining membership becomes current if this one was |
| Organisations.Store.InviteUserToOrganisation | src/client/src/lib/organisation.ts:348-434 | Which refusal the first failing check gives; otherwise a known user joins and gets the configs, and an unknown address gets an invitation |
| Organisations.Store.AcceptInvitation | src/client/src/lib/organisation.ts:467-505 | The invited user joins, gets the configs, and the invitation is gone |
| Organisations.Store.DeclineInvitation | src/client/src/lib/organisation.ts:510-534 | Only the invited user declines |
| Organisations.Store.CancelInvitation | src/client/src/lib/organisation.ts:859-882 | Only an admin or the owner cancels |
| Organisations.Store.MoveInvitationsToMembership | src/client/src/lib/organisation.ts:539-569 | All invitations of the address become memberships, or those up to one that fails |
| Organisations.Store.RemoveUserFromOrganisation | src/client/src/lib/organisation.ts:574-698 | Who may remove whom, and the tables after the access rows, the membership and the promotion |
| Organisations.Store.RemovalRefusal | src/client/src/lib/organisation.ts:587-640 | The nested role checks allow exactly what `MayRemove` says |
| Organisations.Store.UpdateMemberRole | src/client/src/lib/organisation.ts:754-821 | The role checks, and the one membership they let change |
| Organisations.Store.MigrateUserConfigsToOrganisation | src/client/src/lib/organisation.ts:930-1014 | The orphaned configs move together or not at all, and everyone who shares one is admitted |
| Organisations.Store.ShareOrganisationDatabaseConfigs | src/client/src/lib/organisation.ts:1019-1081 | The access rows after sharing, oldest config first |
| CircuitBreaker.CountIsFailuresSinceSuccess | operator/internal/webhook/handler.go:647-684 | In every run the count is the failures since the last success, and closed means fewer than the limit |
| CircuitBreaker.OpensExactlyAtLimit | operator/internal/webhook/handler.go:661-684 | A closed breaker opens exactly with the failure that completes the limit without a success between |
| CircuitBreaker.LeavesOpenExactlyWhen | operator/internal/webhook/handler.go:687-700 | A run ever leaves the open state if and only if it contains an attempt no sooner than the reset timeout after the last failure before it |
| CircuitBreaker.ClosesExactlyWhen | operator/internal/webhook/handler.go:647-700 | It ever closes if and only if a success follows such an attempt with no failure between |
| CircuitBreaker.OpenForeverWithoutAttempt | operator/internal/webhook/handler.go:629-700 | So the retry loop never closes an open breaker, and each failure rejects calls for the whole reset timeout |
| CircuitBreaker.CallIsPath | operator/internal/webhook/handler.go:712-785 | One call of the retry loop is one path of the interleaved traffic |
| CircuitBreaker.RequestsLessFailures | operator/internal/webhook/handler.go:712-785 | However calls interleave, each admitted one records one outcome, and at rest requests less failures are the successes |
| CircuitBreaker.TrafficKeepsInv | operator/internal/webhook/handler.go:712-785 | Every interleaving keeps the accounts, and no call of the loop closes an open breaker |
| CircuitBreaker.CircuitBreaker.CanExecute | operator/internal/webhook/handler.go:629-644 | Rejects only while open and before the timeout |
| CircuitBreaker.CircuitBreaker.RecordSuccess | operator/internal/webhook/handler.go:647-658 | Resets the count and closes only a half-open breaker |
| CircuitBreaker.CircuitBreaker.RecordFailure | operator/internal/webhook/handler.go:661-684 | Counts, stamps the time, and opens at the limit or from half-open |
| CircuitBreaker.CircuitBreaker.Attempt | operator/internal/webhook/handler.go:687-700 | The one way from open to half-open |
| CircuitBreaker.Handler.ExecuteWithRetryAndTimeout | operator/internal/webhook/handler.go:712-785 | At most the allowed attempts, one recorded outcome for an admitted call and none for a rejected one; counters and breaker end where its path of the traffic does |
| Streams.ReadOpenAIStream | sdk/go/instrumentation/openai/streaming.go:119-166 | Sends the decoded data lines up to the end mark or the first that does not decode, with their text; what a scanner error and a cancelled context change |
| Streams.ReadAnthropicStream | sdk/go/instrumentation/anthropic/streaming.go:121-199 | However event and other lines mix, sends exactly the decoded non-empty data lines; what a scanner error and a cancelled context change |
| Streams.ReadingUndoesRendering | sdk/go/instrumentation/openai/streaming.go:119-166 | Reading rendered events gives back the events, their text and no error, for both readers |
| Streams.BadDataFails | sdk/go/instrumentation/openai/streaming.go:137-141 | With data that does not decode, whatever follows, both readers send exactly the events before it and fail |
| Streams.ScannerErrorFails | sdk/go/instrumentation/openai/streaming.go:162-166 | A scanner error fails both readers, unless the end mark stopped the first before it |
| Streams.CancellingCutsOff | sdk/go/instrumentation/openai/streaming.go:143-159 | Cancelling at an event gives the events before it, an error, and the text up to that event |
| Streams.EmptyDataIsSkipped | sdk/go/instrumentation/anthropic/streaming.go:147-149 | A data line without data does not matter to the second reader |
| EventStreams.AgreesWithStandardExactlyWhen | sdk/go/instrumentation/openai/streaming.go:119-137 | The payloads the readers find are the data that section 9.2.6 of the WHATWG HTML Standard dispatches, after every complete event, if and only if each has at most one data field, with a space after its colon |
| Delivery.RecvDeliversInOrder | sdk/go/instrumentation/openai/types.go:200-209 | In every interleaving: a prefix of the reading in order, EOF only after all of it and if it has no error, an error without cancelling only if it has one |
| Delivery.ClosedAsRead | sdk/go/instrumentation/openai/streaming.go:154-166 | What has gone through the channel when it closes is what the reading method sends |
| Delivery.RenderedIsReceived | sdk/go/instrumentation/anthropic/types.go:104-113 | From rendered lines to `Recv`: EOF means exactly the events, an error means a scanner failure or a cancellation |
| Delivery.BadDataIsReported | sdk/go/instrumentation/openai/types.go:200-209 | In every interleaving, with data that does not decode, `Recv` never reports EOF, and an error only after all the events before it |
| Latency.RecordTokens | sdk/go/instrumentation/openai/streaming.go:143-150 | Timestamps in order, and the time to the first token after the start |
| Latency.AverageGap | sdk/go/instrumentation/openai/streaming.go:234-246 | The gaps telescope, and the average is truncated |
| Latency.AverageWithinBounds | sdk/go/instrumentation/openai/streaming.go:234-246 | The average lies between any bounds on all gaps |
| Latency.EstimateServerDuration | sdk/go/instrumentation/openai/streaming.go:254-268 | First token plus the observed span scaled to the token count, less than a nanosecond per token short |
| Latency.EstimateWithinResponse | sdk/go/instrumentation/anthropic/streaming.go:275-290 | With as many tokens as timestamps it never exceeds the time to the last token and falls short by less than a nanosecond a gap |

## Left out

- Sequence numbers are natural numbers: their wrap-around is not modelled, nor that of counters and nanoseconds.
- SHA-256 is an injective function. An agent of the protocol reports the hash of the config it last received, or no bytes before the first.
- A response that never arrives counts as underway from then on, so after a lost flag `OpampProtocol.StatusReconstruction` promises no more until the entry is created anew.
- OpampProtocol.StatusReconstruction: leaves out package statuses, for which `OpampLimits.PackagesInStepExactlyWhen` is exact, and covers an agent that always sends a config map; a report with a nil one counts as complete in the code and stores nothing, as `AgentSpec.MergeRefinesLastValues` states.
- Capability bits are a set; their values belong to the opamp-go library, which is not part of this model.
- Connection settings are a flag in the response; settings requests, certificates and TLS are not modelled.
- Handlers run one at a time, except in `StatusWatchers` and in the breaker's traffic. Clones and locks have no counterpart.
- Agent.Agent.SetCustomConfig: an unchanged config needs a channel with room, as its comment asks; on a full one the source blocks.
- Agent.Agent.UpdateStatus: a connection settings request in the report is not handled; see the line on connection settings.
- A disconnect discards the watchers that wait on the removed agent; the waiting request then times out.
- OpampServer.Agents.LoadPersistedConfig: file operations succeed, so an unreadable file or one that cannot be removed is not modelled; whether a text is a YAML object is a given predicate.
- OpampServer.HandleSaveConfig: file operations succeed, and the wait of up to five seconds for a report that is not answered at once has no outcome here; `StatusWatchers` says when the channel is woken.
- Injector panics and their emergency recovery, and logging, including the test for existing instrumentation, which only logs.
- InjectorLaws.ChangedExactlyWhen: covers annotations that are lists of Kubernetes names, with any space around them; what a malformed list selects is only computed.
- Service names and the install command are given values; variables set from a reference have no value here.
- Lower-casing and trimming are those of ASCII text.
- Container resources and a volume's other sources are opaque descriptions.
- The slug search is a given result, and the onboarding flag that creation sets is not stored.
- `updateOrganisation` and the read-only queries of `organisation.ts`, which touch neither memberships nor access.
- `db-config.ts` and `seed.js`, which share configs or create current memberships without the checks proved here; they are not steps of the runs.
- Deleting an organisation either drops or detaches its configs, since the database schema is not modelled; everything is proved for both.
- Operations on organisations run one at a time.
- CircuitBreaker.Handler.ExecuteWithRetryAndTimeout: what each attempt does is given by a list of outcomes; timers and the operation itself are not modelled, and an operation that outlives its timeout has no effect here.
- How bytes are scanned into lines and how JSON is decoded: lines and a decoding function are given.
- Token usage, cost, finish reasons and span attributes; seconds as floating point are whole nanoseconds.
- The webhook's choice among matching configurations, the evaluation prompts, stores and user interface: easy members.
