# QuizMind platform: verified model

A Dafny model of the stateful and algorithmic cores of the QuizMind API, its browser-extension client and its
data scripts, with proofs of what they promise over all inputs and all runs.

| module | models |
|---|---|
| `SseEvents`, `SseInspector` | the inspector of streamed completions: chunks of text in, last response id, model and usage out |
| `SseLines`, `SseChunking` | the same streams read line by line, and what the cuts between chunks can change |
| `InstallationSessions` | the installation and session tables of the extension API and every operation on them |
| `SessionProtocol` | the extension's stored session and single-flight refresh, joined with those tables over a lossy network |
| `BoundedBuffer`, `TelemetryBuffer` | the extension's buffer of unsent usage events |
| `ScenarioConfig`, `ScenarioReading` | the scenario normaliser and patch merge, and what they accept and make of each property |
| `ScenarioStore`, `ScenarioWriting` | the scenario table with soft delete, bulk and presets, and what each operation writes |
| `Pricing` | the charge for an AI request and its settlement in the wallet's currency |
| `KeySelection` | the choice of the provider key and the acceptance of an AI request |
| `Compatibility`, `RemoteConfig` | version comparison, compatibility verdict, layered remote configuration |
| `LogThrottle` | the two bounded log throttles |
| `CsvExport` | CSV printing, with a reader |
| `HistoryBackfill`, `Rollups` | the cursor-driven backfill and the rebuild of the daily rollups |
| `LifecycleTrend` | the bucketed trend of the admin security view |
| `Common`, `Text`, `Json` | options and results, string operations, parsed JSON |

Code that changes state step by step is a class or a method with loops. Each such method is proved equal to a
function on values (`Step`, `Next`, `Consume`, `Append`, ...), and the theorems about single calls and whole runs
are lemmas about that function. What such a function itself computes is stated once more by lemmas that speak of its
arguments and result alone (most are named `...Meaning` or `...Iff`). Run `dafny verify dfyconfig.toml`.

## Assumptions

- One step is one public server operation, or on the extension "read the stored session and join or start the
  refresh", or one flush, or one append. Interleavings inside such a step are not modelled, and flush and append do
  not overlap. The code does not guard against either.
- A token is fresh and distinct from all others. It is named by the number of the session row it opens, which is
  right because rows are never deleted. Random ids are parameters.
- JSON parsing, date parsing, date printing and `Number(text)` are function parameters. For scenarios, printing a
  date and parsing it again is taken to be the identity; the telemetry buffer is modelled on parsed JSON.
- Money is exact: reals, with `Math.round(x)` as the floor of `x + 1/2`.

## What turned out not to hold

- **Chunk independence of the stream inspector.** CRLF is replaced per decoded chunk, so a cut between `\r` and `\n`
  leaves the `\r` in the buffer. That matters only where it hides a blank line between two data lines: the inspector
  reads the events of the whole text if and only if it hides none (`SseChunking.SamePayloadsIff`), a cut inside the
  CRLF that ends a data line is harmless (`OtherCutsAreHarmless`), and `AgreesForEveryParserIff` and
  `OneLineEventsAgreeIff` give the exact condition for equal reports. `CutInsideCrlfMatters` is a stream that loses
  its response id, `MergedEventCanRepeat` one whose events differ and whose report does not.
- **Agreement of extension and server after a bind.** Without any lost response, rotation or disconnect, a bind
  result that is saved while a refresh is in flight is overwritten by the answer of that refresh, which the bind has
  already revoked (`BindDuringRefreshLosesSession`). `SyncStepExact` states for every kind of event exactly when
  agreement is kept.
- **The cap of fifty scenarios.** Writing a soft-deleted id revives it without counting it. An operation that stores a
  row passes the cap if and only if the table is full and the id soft-deleted (`StoredExceedsCapIff`), a bulk if and
  only if new and revived ids do not fit (`BulkExceedsCapIff`), and `CapCanBePassed` is a run from the empty table to
  fifty-one active rows. `RunKeepsCap` is the cap for runs that revive nothing.
- **One log line per window.** A key is logged twice within its window if and only if its entry is thrown out and the
  key is called again before the window ends (`LogsTwiceIff`); an open entry is thrown out if and only if a new key
  meets a table full of open windows (`OpenEntryThrownOutIff`). `ManyKeysLogTwice` is such a run for any bound, and
  `LogLinesAreApart` holds whenever no window sees more keys than the bound.
- **Version order with parts that are no numbers.** The order is transitive through a version if and only if all its
  parts are numbers (`TransitiveThroughIff`).
- **The price cap.** It is applied before rounding. A charge passes it if and only if the cap itself rounds up and the
  amount rounds to the same multiple (`ChargePassesCapIff`); a policy keeps every charge under its cap if and only if
  the cap does not round up (`PolicyKeepsCapIff`).
- **Fallback of key sources.** It does not consider vision: `OpenChoiceRefusedIff` says exactly when a request that the
  platform key would serve is refused because the choice of the key was left open.

## Model

| member | source | states |
|---|---|---|
| SseInspector.InspectOpenRouterSseStream | apps/api/src/ai/ai-proxy.service.ts:1999-2024 | the chunked inspector reports what the blocks of the whole buffered text report, and what the whole normalised text reports as long as the cuts hide no blank line between two data lines |
| SseInspector.InspectSseEventBlock | apps/api/src/ai/ai-proxy.service.ts:2026-2064 | a block overwrites exactly the facts it gives and leaves the others |
| SseInspector.DrainBuffer | apps/api/src/ai/ai-proxy.service.ts:2007-2014 | draining reads every complete block in order and leaves the unfinished rest |
| SseEvents.CutAppend | apps/api/src/ai/ai-proxy.service.ts:2005-2014 | cutting a prefix and then the rest with what follows gives the cut of the whole |
| SseEvents.PayloadMeaning | apps/api/src/ai/ai-proxy.service.ts:322-360 | usage is read if and only if it is an object and one of its three counts is a finite number, and each count is exactly the one of its own field; id and model are the texts of theirs, trimmed, if not blank |
| SseEvents.OtherPayloadsTellNothing | apps/api/src/ai/ai-proxy.service.ts:2037-2047 | an empty payload, the end mark, a text that is no JSON and JSON that is no object tell nothing |
| SseEvents.OneDataLineMeaning | apps/api/src/ai/ai-proxy.service.ts:2026-2037 | a block with one data line among other lines tells what the trimmed text after `data:` tells |
| SseEvents.TwoDataLinesMeaning | apps/api/src/ai/ai-proxy.service.ts:2026-2037 | two data lines give one payload, with a line feed between them |
| SseEvents.NormalizeReplaces | apps/api/src/ai/ai-proxy.service.ts:2005 | every CRLF becomes a line feed |
| SseEvents.NormalizeKeepsOthers | apps/api/src/ai/ai-proxy.service.ts:2005 | a text without CRLF stays as it is |
| SseLines.BlocksAreLines | apps/api/src/ai/ai-proxy.service.ts:2007-2031 | cutting at leftmost blank lines gives the same events as reading line by line, a blank line ending an event, as sections 9.2.5 and 9.2.6 of the WHATWG HTML standard have it |
| SseChunking.ChunkwiseNormalization | apps/api/src/ai/ai-proxy.service.ts:2005 | replacing CRLF chunk by chunk is replacing it in the whole text if and only if no chunk ends inside a CRLF |
| SseChunking.SamePayloadsIff | apps/api/src/ai/ai-proxy.service.ts:2005-2014 | from the chunks the inspector reads the events of the whole text if and only if no blank line between two data lines is hidden by a cut |
| SseChunking.OtherCutsAreHarmless | apps/api/src/ai/ai-proxy.service.ts:2005-2030 | that is so unless a chunk ends inside a CRLF that directly follows a line feed |
| SseChunking.AgreesForEveryParserIff | apps/api/src/ai/ai-proxy.service.ts:1999-2064 | chunks and whole text give the same report for every parser if and only if the same parsed events, each where it occurs last, are read from both |
| SseChunking.OneLineEventsAgreeIff | apps/api/src/ai/ai-proxy.service.ts:1999-2064 | with one data line per event, that is so if and only if the cuts hide no separator |
| SseChunking.ChunkingDoesNotMatter | apps/api/src/ai/ai-proxy.service.ts:1999-2024 | any two chunkings of one text that hide no separator give the same result, that of the whole text |
| SseChunking.StreamReportsLastWriter | apps/api/src/ai/ai-proxy.service.ts:2048-2063 | for such chunkings each fact is the one given by the last block of the whole text that gives it, and absent only if none does |
| SseChunking.CutInsideCrlfLosesTheId | apps/api/src/ai/ai-proxy.service.ts:2005 | a cut inside the CRLF that ends a blank line merges two events, and an id given by the first is lost |
| SseChunking.CutInsideCrlfMatters | apps/api/src/ai/ai-proxy.service.ts:2005 | there is a stream whose report suffers from a hidden separator |
| SseChunking.MergedEventCanRepeat | apps/api/src/ai/ai-proxy.service.ts:1999-2064 | a hidden separator need not show: when the merged event and both its parts come again later, every parser reports the same |
| InstallationSessions.ExtensionInstallationSessionRepository.Create | apps/api/src/extension/extension-installation-session.repository.ts:62-72 | appends one unrevoked row, and changes no other |
| InstallationSessions.ExtensionInstallationSessionRepository.FindActiveByToken | apps/api/src/extension/extension-installation-session.repository.ts:111-122 | finds the row of the token if and only if it is unrevoked and its expiry lies ahead |
| InstallationSessions.ExtensionInstallationSessionRepository.RevokeActiveByInstallationId | apps/api/src/extension/extension-installation-session.repository.ts:124-136 | revokes exactly the unrevoked rows of the installation, keeps earlier revocation times, and counts them |
| InstallationSessions.ExtensionInstallationSessionRepository.Revoke | apps/api/src/extension/extension-installation-session.repository.ts:138-148 | revokes one row |
| InstallationSessions.ExtensionInstallationRepository.UpsertBoundInstallation | apps/api/src/extension/extension-installation.repository.ts:47-88 | creates the row or moves it to another owner; each metadata column that is not given is kept |
| InstallationSessions.ExtensionInstallationRepository.UpdateDeviceLabelForUser | apps/api/src/extension/extension-installation.repository.ts:90-101 | writes the label only for the owner |
| InstallationSessions.ExtensionControlService.BindInstallation | apps/api/src/extension/extension-control.service.ts:204-299 | is the bind step: upsert, revoke all, issue |
| InstallationSessions.ExtensionControlService.RotateInstallationSession | apps/api/src/extension/extension-control.service.ts:775-843 | is the rotate step with its refusals in order |
| InstallationSessions.ExtensionControlService.DisconnectInstallation | apps/api/src/extension/extension-control.service.ts:662-718 | is the disconnect step with its refusals in order |
| InstallationSessions.ExtensionControlService.SelfDisconnectInstallation | apps/api/src/extension/extension-control.service.ts:720-773 | is the self-disconnect step |
| InstallationSessions.ExtensionControlService.RefreshInstallationSession | apps/api/src/extension/extension-control.service.ts:845-888 | is the refresh step: the token's session is revoked and a new one issued to the current owner |
| InstallationSessions.ExtensionControlService.BootstrapInstallationSession | apps/api/src/extension/extension-control.service.ts:301-373 | is the bootstrap step: it touches the installation, never its owner or its sessions |
| InstallationSessions.ExtensionControlService.UpdateInstallationLabel | apps/api/src/extension/extension-control.service.ts:627-660 | is the label step |
| InstallationSessions.ExtensionControlService.IssueInstallationSession | apps/api/src/extension/extension-control.service.ts:1276-1294 | appends a session that expires after the lifetime in force |
| InstallationSessions.StepKeepsConsistent | apps/api/src/extension/extension-control.service.ts:204-232 | every operation keeps: only the newest session of an installation can be unrevoked, and an unrevoked one belongs to the current owner |
| InstallationSessions.RunKeepsConsistent | apps/api/src/extension/extension-control.service.ts:795-804 | so does every run |
| InstallationSessions.AtMostOneLiveSession | apps/api/src/extension/extension-control.service.ts:204-232 | over every run from empty tables an installation has at most one unrevoked session, and its user is the owner, also after the installation changed hands |
| InstallationSessions.LiveAfterStep | apps/api/src/extension/extension-control.service.ts:681-685 | bind, rotate and refresh leave exactly the session they issue; the disconnects leave none and revoke at most one |
| InstallationSessions.RefreshAcceptedIff | apps/api/src/extension/extension-control.service.ts:301-317 | in consistent tables a refresh succeeds if and only if the token is unrevoked and unexpired, and issues to the owner; otherwise nothing changes |
| InstallationSessions.OwnerOperationsIff | apps/api/src/extension/extension-control.service.ts:662-680 | rotate and disconnect succeed if and only if the caller is permitted, gives a reason of 1 to 500 characters and owns the installation; otherwise nothing changes |
| InstallationSessions.OwnerRefusals | apps/api/src/extension/extension-control.service.ts:662-680 | which refusal it is: blank id, permission, reason, owner, in that order |
| InstallationSessions.BindMeaning | apps/api/src/extension/extension-installation.repository.ts:58-87 | when a bind is accepted, and all it writes: owner, handshake and last-seen time of the request, creation time kept, each metadata column as given or else as it was; every live session revoked, and one issued for the lifetime in force |
| InstallationSessions.RotateAndDisconnectMeaning | apps/api/src/extension/extension-control.service.ts:681-690 | what a rotation and the disconnects write: revoked sessions, their number, the issued session, and no installation row |
| InstallationSessions.BootstrapAcceptedIff | apps/api/src/extension/extension-control.service.ts:301-373 | a bootstrap is accepted if and only if the token is live, the installation known and the one claimed, and the handshake valid; it writes what the device reports, and neither owner nor sessions |
| InstallationSessions.BootstrapRefusals | apps/api/src/extension/extension-control.service.ts:301-317 | which refusal of a bootstrap it is |
| InstallationSessions.LabelMeaning | apps/api/src/extension/extension-control.service.ts:627-660 | a label is written if and only if the caller may read and owns the installation and it is at most 120 characters long, trimmed, a blank one removing it |
| InstallationSessions.RunKeepsRow | apps/api/src/extension/extension-installation.repository.ts:58-87 | over every run an installation stays known with its creation time, and without a bind or bootstrap for it, with its owner, handshake and last-seen time |
| InstallationSessions.ReplacesIff | apps/api/src/extension/extension-control.service.ts:662-830 | an operation other than refresh issues or revokes sessions if and only if its guard holds |
| InstallationSessions.OtherInstallationsUntouched | apps/api/src/extension/extension-installation-session.repository.ts:124-136 | no operation changes the installation row or the live sessions of another installation |
| InstallationSessions.StepExtends | apps/api/src/extension/extension-installation-session.repository.ts:111-149 | session rows are append-only, and a revoked one never changes |
| InstallationSessions.RunExtends | apps/api/src/extension/extension-installation-session.repository.ts:111-149 | over every run as well |
| InstallationSessions.RunOneMore | apps/api/src/extension/extension-control.service.ts:204-888 | a run is its operations one after the other |
| InstallationSessions.RedeemedTokenStaysDead | apps/api/src/extension/extension-control.service.ts:845-855 | a token that has been exchanged is never active and never accepted again, after any run |
| InstallationSessions.BindMovesOwnership | apps/api/src/extension/extension-installation.repository.ts:72-86 | after a bind by someone else the previous owner can neither rotate nor disconnect, and the live session is the new owner's |
| SessionProtocol.PlatformRuntimeClient.EnsureValidInstallationSession | packages/extension/src/platform-runtime.ts:113-141 | up to the first wait: use the stored session, join the refresh in flight, start one, or ask for a reconnect |
| SessionProtocol.PlatformRuntimeClient.FinishRefresh | packages/extension/src/platform-runtime.ts:83-111 | a renewed session is saved and a 401 clears the store, and the slot is freed in every case |
| SessionProtocol.PlatformRuntimeClient.SaveBindResult | packages/extension/src/platform-state.ts:260-263 | the bound session replaces the stored one |
| SessionProtocol.DecisionMeaning | packages/extension/src/platform-runtime.ts:113-130 | the stored session is used as it is if and only if the call is unforced and the expiry unreadable or more than 300000 ms ahead; otherwise the refresh in flight is joined, or one is started with its token |
| SessionProtocol.ExpiredIsNotUsedAtOnce | packages/extension/src/platform-runtime.ts:118-130 | an expired session is never used without a refresh |
| SessionProtocol.SettleMeaning | packages/extension/src/platform-runtime.ts:88-110 | an answer saves the renewed session, clears the store or leaves it, and always frees the slot |
| SessionProtocol.HandMeaning | packages/extension/src/platform-runtime.ts:132-140 | after a refresh that failed other than by a 401, the session read before is used if and only if it had not expired then |
| SessionProtocol.EnsureMeaning | packages/extension/src/platform-runtime.ts:113-141 | one refresh of the stored token goes out if and only if a session is stored, none is in flight, and it is forced or within five minutes of its expiry; otherwise nothing changes |
| SessionProtocol.AnswerMeaning | apps/api/src/extension/extension-control.service.ts:845-888 | the server answers a refresh with the session it issues, with a 401, or with another error that executes nothing |
| SessionProtocol.ArrivalMeaning | packages/extension/src/platform-runtime.ts:88-110 | what an answer that arrives, or a request that fails without one, leaves in the extension |
| SessionProtocol.NextKeepsInvariant | packages/extension/src/platform-runtime.ts:83-157 | every event of the joint system keeps its invariant: tables consistent, one exchange awaited at most, sessions on their way are new, no redeemed token is stored or submitted |
| SessionProtocol.RunKeepsInvariant | packages/extension/src/platform-bootstrap.ts:96-130 | so does every run |
| SessionProtocol.RefreshesAreSafe | packages/extension/src/platform-runtime.ts:83-111 | over every run with any interleaving and losses: at most one refresh in flight, and a token whose refresh succeeded is never submitted or stored again |
| SessionProtocol.SyncRegained | packages/extension/src/platform-bootstrap.ts:96-130 | a saved bind result brings agreement with the server if and only if it is current and no refresh is in flight, a received renewal if and only if it is current |
| SessionProtocol.SyncStepExact | apps/api/src/extension/extension-control.service.ts:845-888 | from agreement, an event keeps agreement if and only if it is none of the listed disturbing ones |
| SessionProtocol.RunStaysSynced | packages/extension/src/platform-runtime.ts:83-157 | over every run without such events the stored token is the server's unique unrevoked one or is being exchanged by the one refresh in flight |
| SessionProtocol.StoreClearedOnlyBy401 | packages/extension/src/platform-runtime.ts:91-104 | the store is emptied exactly by receiving a 401 to the refresh, and in agreement only after the session expired |
| SessionProtocol.HandedSessionIsCurrent | packages/extension/src/platform-runtime.ts:113-141 | in agreement, a session handed to a waiting caller is the server's current one |
| SessionProtocol.BindDuringRefreshLosesSession | packages/extension/src/platform-state.ts:260-263 | a run in which a bind overlaps a refresh and the extension ends with a revoked session |
| TelemetryBuffer.Normalize | packages/extension/src/platform-state.ts:47-69 | an event survives storage unchanged if and only if its texts are non-blank and trimmed |
| TelemetryBuffer.NormalizeIsStoring | packages/extension/src/platform-state.ts:47-69 | reading back a stored event is normalising it |
| TelemetryBuffer.ReadBack | packages/extension/src/platform-state.ts:226-245 | reading back a stored list gives the normalised events that are acceptable, in order |
| TelemetryBuffer.ReadingMeaning | packages/extension/src/platform-state.ts:47-69 | an item is read as an event if and only if it has the three texts, not blank, and an object as payload, each from the property of its name |
| TelemetryBuffer.FlushBufferedEvents | packages/extension/src/platform-telemetry.ts:112-155 | splits the events into a delivered prefix, all acknowledged, and a remaining suffix that starts with the first failure |
| TelemetryBuffer.PlatformRuntime.GetBufferedEvents | packages/extension/src/platform-state.ts:226-236 | every event read is well formed and the reading of an item of the stored list, every such reading is returned, and nothing is read from anything but a list |
| TelemetryBuffer.PlatformRuntime.SetBufferedEvents | packages/extension/src/platform-state.ts:238-245 | writes the list, or removes the key for an empty one |
| TelemetryBuffer.PlatformRuntime.AppendBufferedEvent | packages/extension/src/platform-state.ts:247-254 | appends and drops the oldest beyond the cap |
| TelemetryBuffer.PlatformRuntime.FlushBufferedEventsFromState | packages/extension/src/platform-runtime.ts:500-521 | delivers a prefix of the buffer and keeps exactly the rest; nothing changes without a session |
| TelemetryBuffer.PlatformRuntime.SendUsageEvent | packages/extension/src/platform-runtime.ts:362-411 | what is buffered after each outcome of a request |
| TelemetryBuffer.CapMeaning | packages/extension/src/platform-state.ts:248 | the cap is 100 by default, else the floor of what is given, at least 1 |
| TelemetryBuffer.FlushMeaning | packages/extension/src/platform-runtime.ts:500-521 | a flush delivers exactly the events before the first that is not acknowledged, and nothing without a session |
| BoundedBuffer.AppendAccounts | packages/extension/src/platform-state.ts:247-254 | an append keeps the account: departed items followed by the buffer are the items appended, in order; never more than the cap |
| BoundedBuffer.DeliverAccounts | packages/extension/src/platform-telemetry.ts:112-155 | so does the delivery of a prefix |
| TelemetryBuffer.StepIsGood | packages/extension/src/platform-runtime.ts:362-411 | every operation keeps account and bound, only extends the account, and drops only from a full buffer |
| TelemetryBuffer.RunOneMore | packages/extension/src/platform-runtime.ts:362-411 | a run is its appends, requests and flushes one after the other |
| TelemetryBuffer.RunIsAccounted | packages/extension/src/platform-state.ts:226-254 | over every run the buffer is the suffix of the append history of length at most 100 that has not departed; every earlier event was delivered or dropped, once, in order |
| TelemetryBuffer.FailedEventIsKept | packages/extension/src/platform-runtime.ts:385-409 | a well-formed event is in the buffer after a retryable error of any status, after a 401, and after an error that is no platform error; after any other status, a success, or with buffering off, nothing changes |
| TelemetryBuffer.BufferAfterFailure | packages/extension/src/platform-runtime.ts:385-409 | the whole buffer after such a failure: the newest hundred of what was there and the event |
| TelemetryBuffer.UnauthorizedAsksForReconnect | packages/extension/src/platform-runtime.ts:159-207 | the whole buffer after a 401: the event is appended, and after it a reconnect request unless one is there |
| TelemetryBuffer.ReconnectMeaning | packages/extension/src/platform-runtime.ts:54-64 | what a reconnect request says: installation and time of the event, status, message, event type, and a reason that goes by the message |
| ScenarioConfig.NormalizedIsNormal | apps/api/src/extension/extension-scenarios.service.ts:65-138 | whatever the normaliser accepts becomes a normal form: lengths, ranges and enumerations hold, and the update time is the clock |
| ScenarioConfig.NormalIsFixed | apps/api/src/extension/extension-scenarios.service.ts:65-138 | normalising a normal form against itself changes only `updatedAt` |
| ScenarioConfig.EmptyPatch | apps/api/src/extension/extension-scenarios.service.ts:170-186 | the empty patch changes only `updatedAt` |
| ScenarioConfig.PatchOutcome | apps/api/src/extension/extension-scenarios.service.ts:170-186 | when a patch succeeds, and what it gives; id and `createdAt` are kept |
| ScenarioConfig.PatchTwice | apps/api/src/extension/extension-scenarios.service.ts:170-186 | a patch that succeeds once succeeds on its own result, with the same result up to `updatedAt` |
| ScenarioReading.AcceptedIff | apps/api/src/extension/extension-scenarios.service.ts:65-80 | a request is accepted if and only if it is an object without dangerous keys, with a usable id and an acceptable body |
| ScenarioReading.IdentityMeaning | apps/api/src/extension/extension-scenarios.service.ts:70 | the id is the one asked for, else the request's own trimmed, else a fresh one; the update time is the clock |
| ScenarioReading.CreatedAtMeaning | apps/api/src/extension/extension-scenarios.service.ts:94 | the creation time is that of the stored configuration, else the request's, else the clock, the first that reads |
| ScenarioReading.ColumnsMeaning | apps/api/src/extension/extension-scenarios.service.ts:89-107 | name, label, description and icon are accepted and trimmed within 80, 28, 500 and 8 characters; flags default to true, the menu order to 100, and integers are brought into its range |
| ScenarioReading.AiMeaning | apps/api/src/extension/extension-scenarios.service.ts:119-124 | model within 150 characters, temperature brought into 0 to 2 and 0.3 by default, tokens into 1 to 20000 and 700 by default |
| ScenarioReading.PromptMeaning | apps/api/src/extension/extension-scenarios.service.ts:125-128 | both prompts are required, within 12000 characters |
| ScenarioReading.WindowMeaning | apps/api/src/extension/extension-scenarios.service.ts:95-134 | the position is one of three, "inherit" by default, and only booleans set the two flags |
| ScenarioReading.OutputMeaning | apps/api/src/extension/extension-scenarios.service.ts:78-118 | an image needs its renderer and has both flags true by default; a type inside a list passes the check and becomes text output |
| ScenarioReading.BodyMeaning | apps/api/src/extension/extension-scenarios.service.ts:72-96 | the input must be selected text, and every section is accepted for itself, absent ones by their defaults |
| ScenarioReading.SectionsAreObjects | apps/api/src/extension/extension-scenarios.service.ts:72-87 | a section that is given and is no object is refused |
| ScenarioReading.DefaultSections | apps/api/src/extension/extension-scenarios.service.ts:72-134 | what a configuration with only its columns and prompt becomes |
| ScenarioReading.MergeMeaning | apps/api/src/extension/extension-scenarios.service.ts:175-177 | a patch replaces properties whole |
| ScenarioReading.SectionMergeMeaning | apps/api/src/extension/extension-scenarios.service.ts:178-182 | in the five sections it replaces single properties |
| ScenarioReading.StoredIdentity | apps/api/src/extension/extension-scenarios.service.ts:98-137 | id, version 1 and both times are stored under their names |
| ScenarioReading.StoredOutput | apps/api/src/extension/extension-scenarios.service.ts:109-118 | output is stored with its renderer and, for an image, both flags |
| ScenarioReading.DangerousMeaning | apps/api/src/extension/extension-scenarios.service.ts:35-42 | a document is refused if and only if one of the six dangerous keys is somewhere in it, through objects and lists of any depth |
| ScenarioStore.ServiceCodecIsGood | apps/api/src/extension/extension-scenarios.service.ts:65-138 | normaliser and patch give normal forms under the requested id and keep a stored `createdAt` |
| ScenarioStore.ExtensionScenariosService.CreateScenario | apps/api/src/extension/extension-scenarios.service.ts:146-159 | is the create step, with revival of a soft-deleted id |
| ScenarioStore.ExtensionScenariosService.PutScenario | apps/api/src/extension/extension-scenarios.service.ts:161-168 | is the put step |
| ScenarioStore.ExtensionScenariosService.PatchScenario | apps/api/src/extension/extension-scenarios.service.ts:170-186 | is the patch step |
| ScenarioStore.ExtensionScenariosService.RemoveScenario | apps/api/src/extension/extension-scenarios.service.ts:188-193 | is the soft delete |
| ScenarioStore.ExtensionScenariosService.NormalizeAll | apps/api/src/extension/extension-scenarios.service.ts:201-211 | the loop over bulk items with its set of seen ids |
| ScenarioStore.ExtensionScenariosService.BulkScenarios | apps/api/src/extension/extension-scenarios.service.ts:195-233 | is the bulk step, merge or replace |
| ScenarioStore.ExtensionScenariosService.InstallPreset | apps/api/src/extension/extension-scenario-presets.service.ts:214-231 | is the install step |
| ScenarioWriting.CreateMeaning | apps/api/src/extension/extension-scenarios.service.ts:146-159 | when a create stores, revives or conflicts, and the row it writes |
| ScenarioWriting.PutMeaning | apps/api/src/extension/extension-scenarios.service.ts:161-168 | a put stores what the request normalises to, in a new row only below fifty active ones |
| ScenarioWriting.PatchMeaning | apps/api/src/extension/extension-scenarios.service.ts:170-186 | a patch is for an active row |
| ScenarioWriting.RemoveMeaning | apps/api/src/extension/extension-scenarios.service.ts:188-193 | removing marks an active row and keeps what it holds |
| ScenarioWriting.InstallMeaning | apps/api/src/extension/extension-scenario-presets.service.ts:214-231 | an installed preset is enabled and dated now, needs room, and is otherwise what the preset normalises to |
| ScenarioWriting.CandidateIdMeaning | apps/api/src/extension/extension-scenarios.service.ts:205-206 | a bulk item is stored under its own trimmed id if that is a text and not blank, else under a fresh one |
| ScenarioWriting.BulkBodyMeaning | apps/api/src/extension/extension-scenarios.service.ts:196-198 | only a list gives items, and only the word "replace" replaces |
| ScenarioWriting.ItemsMeaning | apps/api/src/extension/extension-scenarios.service.ts:203-211 | the items are accepted if and only if each normalises and no two have the same id |
| ScenarioWriting.BulkDoneIff | apps/api/src/extension/extension-scenarios.service.ts:195-217 | a bulk is carried out if and only if its items are accepted and at most fifty, when merging together with the active rows and counting unknown ids only |
| ScenarioWriting.BulkMeaning | apps/api/src/extension/extension-scenarios.service.ts:219-230 | what it writes: each item in its row, when replacing the deletion mark on every other active row, and nothing else |
| ScenarioStore.StepIsSound | apps/api/src/extension/extension-scenarios.service.ts:140-141 | every operation keeps: columns mirror the stored configuration, its id is the row's key, and no `createdAt` changes |
| ScenarioStore.RunIsSound | apps/api/src/extension/extension-scenarios.service.ts:146-233 | over every run as well, through soft delete and revival |
| ScenarioStore.ReachableIsSound | apps/api/src/extension/extension-scenarios.service.ts:146-233 | so it holds in every table reachable from the empty one with the real normaliser |
| ScenarioStore.EmptyPatchOfRow | apps/api/src/extension/extension-scenarios.service.ts:170-186 | in such a table, an empty patch of an active row changes only `updatedAt` |
| ScenarioStore.BulkRefinesSets | apps/api/src/extension/extension-scenarios.service.ts:195-233 | replace leaves exactly the requested ids active, at most 50; merge leaves old active union requested; a rejected request changes nothing |
| ScenarioStore.ActiveAfterFallsShortBy | apps/api/src/extension/extension-scenarios.service.ts:213-217 | the precomputed count falls short by the number of revived rows when merging, and by nothing when replacing |
| ScenarioStore.ActiveAfterIsTrueCount | apps/api/src/extension/extension-scenarios.service.ts:213-217 | it is right if and only if the mode is replace or no requested id is soft-deleted |
| ScenarioStore.StepKeepsCap | apps/api/src/extension/extension-scenarios.service.ts:146-168 | an operation that revives nothing keeps at most 50 active rows |
| ScenarioStore.RunKeepsCap | apps/api/src/extension/extension-scenario-presets.service.ts:217-219 | so does every run that revives nothing |
| ScenarioStore.StoredExceedsCapIff | apps/api/src/extension/extension-scenarios.service.ts:146-186 | an operation that stores a row passes the cap if and only if the table is full and the id soft-deleted |
| ScenarioStore.BulkExceedsCapIff | apps/api/src/extension/extension-scenarios.service.ts:213-217 | an accepted bulk passes it if and only if it merges and active, new and revived requested ids do not fit together |
| ScenarioStore.RevivalPassesCap | apps/api/src/extension/extension-scenarios.service.ts:161-193 | fifty puts, a removal, a put in its place and a put of the removed id leave fifty-one active rows, for any ids |
| ScenarioStore.CapCanBePassed | apps/api/src/extension/extension-scenarios.service.ts:161-193 | so the service with its own normaliser can be driven past the cap |
| Pricing.AmountBeforeRounding | apps/api/src/ai/ai-pricing.service.ts:51-71 | the step-by-step reassignments come to the amount by key source, status and mode, under the cap |
| Pricing.CalculateWithPolicy | apps/api/src/ai/ai-pricing.service.ts:39-109 | the breakdown: charge, chargeable exactly when positive, and the reason when not |
| Pricing.ExactCharge | apps/api/src/ai/ai-pricing.service.ts:46-67 | with rounding off and no cap, the charge case by case for every key source, status and mode, in provider cost, markup and minimum fee |
| Pricing.CapThenRounding | apps/api/src/ai/ai-pricing.service.ts:69-73 | how cap and rounding change that charge: the smaller of it and the cap, then the nearest multiple of the increment, and never below zero |
| Pricing.KeyRelations | apps/api/src/ai/ai-pricing.service.ts:53-67 | a full price on the user's key is the platform key's, the fee alone is that price less the provider cost, and a failed request costs the same on either key |
| Pricing.ChargeIsMonotone | apps/api/src/ai/ai-pricing.service.ts:39-109 | the charge never falls when provider cost, markup or minimum fee rise, for every key source, status and mode, through cap and rounding |
| Pricing.SettleIsMonotone | apps/api/src/ai/ai-proxy.service.ts:2253-2315 | a smaller charge settles wherever a larger one does, and for no more minor units |
| Pricing.OverrideMeaning | apps/api/src/ai/ai-pricing.service.ts:111-120 | an exemption takes away the whole fee, an override sets the markup, and nothing else changes |
| Pricing.LenientOverrideNeverRaises | apps/api/src/ai/ai-pricing.service.ts:111-120 | a fee exemption or a markup override that is not higher never raises the debit and never makes a settlement fail |
| Pricing.ChargeRange | apps/api/src/ai/ai-pricing.service.ts:69-108 | with a positive increment r and a cap m >= 0 the charge is a multiple of r within r/2 of the exact amount, at most m + r/2, at most m when m is a multiple, and positive exactly from r/2 on |
| Pricing.RoundingIsNear | apps/api/src/ai/ai-pricing.service.ts:122-125 | rounding gives a multiple of the increment, off by at most one half of it, halves going up |
| Pricing.ChargePassesCapIff | apps/api/src/ai/ai-pricing.service.ts:69-73 | a charge passes its cap m >= 0 if and only if m rounds up and the amount rounds to the same multiple |
| Pricing.PolicyKeepsCapIff | apps/api/src/ai/ai-pricing.service.ts:69-73 | no charge of a policy passes its cap if and only if the cap does not round up |
| Pricing.RoundingCanPassTheCap | apps/api/src/ai/ai-pricing.service.ts:69-73 | a capped charge that rounds to above its cap |
| Pricing.DebitCoversCharge | apps/api/src/ai/ai-proxy.service.ts:2329-2358 | the debit covers the exact amount, overshoots it by less than one minor unit, is positive exactly for a positive charge, and never exceeds the balance |
| Pricing.SettleFailsIff | apps/api/src/ai/ai-proxy.service.ts:2291-2294 | settlement fails if and only if the charge is positive and the currency is not billed or the balance is below the exact amount |
| Pricing.UsdToRubRate | apps/api/src/ai/ai-proxy.service.ts:2338-2340 | the rate is positive whatever the environment says: a positive configured rate, else 90 |
| Pricing.CurrencyMeaning | apps/api/src/ai/ai-proxy.service.ts:2329-2358 | roubles are billed in kopecks at the configured rate if positive, else at 90, dollars in cents, and nothing else is billed |
| KeySelection.AttemptOrder | apps/api/src/ai/ai-proxy.service.ts:1199-1227 | exactly when each source is tried, by stated preference, mode, provider and policy; with two the user's comes first |
| KeySelection.ResolveKeyMaterial | apps/api/src/ai/ai-proxy.service.ts:1108-1197 | the loop returns the selected key or the last error, and records every failed attempt in order |
| KeySelection.FirstAfterSoftFailures | apps/api/src/ai/ai-proxy.service.ts:1133-1183 | a source is returned if and only if it is the first in the order that resolves after only soft failures |
| KeySelection.SelectedSource | apps/api/src/ai/ai-proxy.service.ts:1199-1235 | the user's key is selected if and only if it is in the order and resolves; the platform's if and only if it resolves and the user's is not tried or fails softly |
| KeySelection.PlatformKeyMeaning | apps/api/src/ai/ai-proxy.service.ts:1415-1456 | the platform's key: the environment's if not blank, else the stored credential, and which error without one |
| KeySelection.UserKeyMeaning | apps/api/src/ai/ai-proxy.service.ts:1458-1487 | the user's key: the stored credential if own keys are allowed and need no approval, and which error otherwise |
| KeySelection.FallbackMeaning | apps/api/src/ai/ai-proxy.service.ts:1229-1235 | a user's key that is missing, refused or unavailable makes way for the platform's; a bad request or an internal error does not |
| KeySelection.DirectMeaning | apps/api/src/ai/ai-proxy.service.ts:1116-1120 | a provider that is neither router runs on the user's key alone, and only in direct mode |
| KeySelection.AcceptedIsAllowed | apps/api/src/ai/ai-proxy.service.ts:985-1103 | every accepted invocation keeps the policy: platform key only if allowed, user key only with bring-your-own-key and no pending approval, user key for direct providers and when required, no vision on user keys unless allowed, stated preference, balance and quota respected |
| KeySelection.AcceptedIff | apps/api/src/ai/ai-proxy.service.ts:932-1105 | an invocation is accepted if and only if the policy offers it and, for a platform key with the choice left open, the user's key was not allowed or failed softly |
| KeySelection.OpenChoiceRefusedIff | apps/api/src/ai/ai-proxy.service.ts:1030-1034 | a request that the platform key would serve is refused with the choice left open if and only if the user's own key is allowed and resolves but not for this vision model, or fails hard |
| KeySelection.FindModel | apps/api/src/ai/ai-proxy.service.ts:946-952 | the first model of the catalog with that id, or none if there is none |
| KeySelection.ProviderMeaning | apps/api/src/ai/ai-proxy.service.ts:932 | the provider as requested, else the catalog's default, else the policy's first, else OpenRouter |
| KeySelection.ModelMeaning | apps/api/src/ai/ai-proxy.service.ts:934-958 | the model is the catalog's first with the wanted id, on the chosen provider |
| KeySelection.EarlyRefusals | apps/api/src/ai/ai-proxy.service.ts:934-1008 | which requests are turned away before any key is looked for, and how |
| KeySelection.GatesMeaning | apps/api/src/ai/ai-proxy.service.ts:1039-1100 | an empty wallet stops exactly the requests that would be charged, a used-up quota those on the platform's key, and nothing else about the account matters |
| Compatibility.CompareSemver | packages/extension/src/index.ts:38-51 | the loop computes the comparison of the dotted parts |
| Compatibility.CompareMeaning | packages/extension/src/index.ts:42-50 | for any versions the first place where both parts are numbers and differ decides, and without one they are equal; a part that is no number decides nothing |
| Compatibility.PartsMeaning | packages/extension/src/index.ts:39-40 | the parts of a version are the numbers between its dots, in order |
| Compatibility.CompareIsFirstDifference | packages/extension/src/index.ts:42-48 | the first differing part decides, missing parts being zero |
| Compatibility.CompareAntisymmetric | packages/extension/src/index.ts:38-51 | swapping the versions negates the sign |
| Compatibility.CompareTransitive | packages/extension/src/index.ts:38-51 | the order of numeric versions is transitive, strictly if one step is strict |
| Compatibility.CompareZeroIff | packages/extension/src/index.ts:38-51 | numeric versions compare as equal if and only if they agree up to trailing zero parts |
| Compatibility.TransitiveThroughIff | packages/extension/src/index.ts:38-51 | the order of numeric versions is transitive through a version if and only if all its parts are numbers |
| Compatibility.NewerIsNeverWorse | packages/extension/src/index.ts:53-93 | raising the extension version never worsens the verdict, for any policy override |
| Compatibility.VerdictMeaning | packages/extension/src/index.ts:53-93 | each verdict's exact causes: version bounds, schema, capabilities, and a policy that can lower a compatible handshake and cannot touch an incompatible one |
| Compatibility.MissingIsReported | packages/extension/src/index.ts:73-83 | the reason lists the required capabilities that are absent, in order and as often as they are required |
| Compatibility.ReasonMeaning | packages/extension/src/index.ts:57-92 | the reason of every other verdict: the first obstacle's, or the policy's own |
| RemoteConfig.ResolveRemoteConfig | packages/extension/src/index.ts:149-169 | the nested loops compute the overlay of the applied layers and their ids |
| RemoteConfig.AssignEntries | packages/extension/src/index.ts:160-162 | the inner loop overlays one layer's values |
| RemoteConfig.ConditionMeaning | packages/extension/src/index.ts:135-146 | when a condition is met: shared elements for two lists, membership for a text, "undefined" for an absent value, equality otherwise |
| RemoteConfig.MatchesMeaning | packages/extension/src/index.ts:129-146 | a layer matches if and only if the context meets each of its conditions under its key |
| RemoteConfig.Applied | packages/extension/src/index.ts:153-155 | filter and stable sort: exactly the matching layers, in order of priority and then position |
| RemoteConfig.ResolveMeansWinner | packages/extension/src/index.ts:149-169 | a key has a value if and only if a matching layer gives it one, and the value is that of the layer greatest by priority and input position |
| RemoteConfig.AppliedIsStableSort | packages/extension/src/index.ts:153-168 | `appliedLayerIds` lists each matching layer once, sorted by priority, equals in input order |
| RemoteConfig.ReorderingDoesNotMatter | packages/extension/src/index.ts:149-169 | any permutation of layers with distinct priorities resolves to the same values and the same ids |
| LogThrottle.LogState.ConsumeWindow | apps/api/src/request-logging.interceptor.ts:166-188 | one call of the throttle, in place, is `Consume` |
| LogThrottle.LogState.PruneState | apps/api/src/request-logging.interceptor.ts:190-210 | both passes: expired keys go, then the oldest until the table fits |
| LogThrottle.LogState.DeleteExpired | apps/api/src/request-logging.interceptor.ts:195-199 | deletes exactly the expired entries and keeps the order |
| LogThrottle.LogState.DeleteOldest | apps/api/src/request-logging.interceptor.ts:201-209 | terminates and leaves the newest entries |
| LogThrottle.LogInvalidInstallationToken | apps/api/src/extension/extension-control.service.ts:1155-1212 | the throttle of invalid tokens with its key and bound |
| LogThrottle.ConsumeExpectedUnauthorizedWindow | apps/api/src/request-logging.interceptor.ts:166-188 | the throttle of expected 401 responses with its key and bound |
| LogThrottle.TokenKeyMeaning | apps/api/src/extension/extension-control.service.ts:1160-1162 | two calls share a key if and only if the first sixteen characters of the hashes and the trimmed endpoints agree, a blank one counting as "unknown" |
| LogThrottle.CallMeaning | apps/api/src/request-logging.interceptor.ts:166-188 | a call is suppressed if and only if the window of its key is open, and what it does to the table in either case |
| LogThrottle.PruneMeaning | apps/api/src/request-logging.interceptor.ts:190-210 | a table that fits is left alone; else expired entries go, and open ones only as far as needed |
| LogThrottle.CallConserves | apps/api/src/extension/extension-control.service.ts:1155-1190 | one call and what was pending are reported, still pending, or thrown out with their key |
| LogThrottle.RunConserves | apps/api/src/extension/extension-control.service.ts:1155-1212 | over every run, calls equal log lines plus reported suppressed plus pending plus forgotten |
| LogThrottle.RunIsBounded | apps/api/src/extension/extension-control.service.ts:1192-1212 | the table never holds more than the maximum after a call |
| LogThrottle.LogLinesAreApart | apps/api/src/request-logging.interceptor.ts:166-210 | with a monotone clock and no window with more keys than the maximum, two log lines of a key are at least 600000 ms apart |
| LogThrottle.LogsTwiceIff | apps/api/src/request-logging.interceptor.ts:166-210 | with a monotone clock, a key is logged twice within its window if and only if its entry is thrown out and the key is called again before the window of that entry ends |
| LogThrottle.OpenEntryThrownOutIff | apps/api/src/request-logging.interceptor.ts:190-210 | a call throws out an open window if and only if it brings a new key to a table full of open windows |
| LogThrottle.ManyKeysLogTwice | apps/api/src/request-logging.interceptor.ts:201-209 | for any bound, a key, as many other keys as the bound, and the key again within its window: it is logged twice |
| CsvExport.ReadUndoesPrint | apps/api/src/platform.service.ts:3807-3811 | a reader after section 2 of RFC 4180 recovers the records if and only if there is one and each has a field, whatever the fields contain |
| CsvExport.EscapeMeaning | apps/api/src/platform.service.ts:3807-3811 | a field goes between quotes if and only if it holds a quote, a comma or a line feed |
| CsvExport.ExportReadsBack | apps/api/src/platform.service.ts:3661-3698 | an export with plain column names reads back as the names and all rows |
| CsvExport.AdminLogsReadBack | apps/api/src/platform.service.ts:3661-3698 | the admin log export reads back cell by cell, with one width throughout |
| CsvExport.AdminLogEventCells | apps/api/src/platform.service.ts:3661-3676 | each of these columns of the admin log export holds the field it is named after |
| CsvExport.AdminLogPartyCells | apps/api/src/platform.service.ts:3677-3682 | likewise actor, target and installation |
| CsvExport.AdminLogRequestCells | apps/api/src/platform.service.ts:3683-3691 | likewise the figures of the request, its error and metadata |
| CsvExport.InstallationsReadBack | apps/api/src/platform.service.ts:3769-3785 | the installation export reads back, and its capability cells do if and only if the list is not empty and no capability holds a bar |
| CsvExport.InstallationCells | apps/api/src/platform.service.ts:3769-3785 | each column of the installation export holds the field it is named after |
| HistoryBackfill.Backfill.BackfillEventsAndContent | packages/database/prisma/backfill-ai-history-plan-b.ts:38-141 | terminates and visits every row exactly once in id order, with any positive batch size, and none with zero |
| HistoryBackfill.Backfill.UpsertPage | packages/database/prisma/backfill-ai-history-plan-b.ts:71-135 | the rows of a page are upserted one after the other |
| HistoryBackfill.PageAt | packages/database/prisma/backfill-ai-history-plan-b.ts:43-47 | the page after the cursor is the next slice of the table |
| HistoryBackfill.UpsertAllRow | packages/database/prisma/backfill-ai-history-plan-b.ts:76-132 | afterwards each row's event and content follow it, except for the user, the display name, the deletion mark and blob keys that are kept; other ids are untouched |
| HistoryBackfill.BackfilledEvent | packages/database/prisma/backfill-ai-history-plan-b.ts:76-113 | the event of a backfilled request, field by field, type "text" by default |
| HistoryBackfill.BackfilledContent | packages/database/prisma/backfill-ai-history-plan-b.ts:115-132 | its content, field by field: prompt, response and file blob each where found, and an expiry of the request's or seven days after it |
| HistoryBackfill.BackfillTwice | packages/database/prisma/backfill-ai-history-plan-b.ts:76-132 | running the backfill again changes nothing |
| Rollups.RollupTable.RebuildRollups | packages/database/prisma/backfill-ai-history-plan-b.ts:143-215 | the table becomes the accumulated buckets, each written once, and their number is returned |
| Rollups.RollupTable.WriteChunks | packages/database/prisma/backfill-ai-history-plan-b.ts:209-213 | the chunks together are the buckets in order |
| Rollups.WriteLoopEndsIff | packages/database/prisma/backfill-ai-history-plan-b.ts:209-213 | the write loop comes to its end if and only if the batch size is positive or there is nothing to write |
| Rollups.CollectBuckets | packages/database/prisma/backfill-ai-history-plan-b.ts:179-207 | the loop over the events accumulates the buckets |
| Rollups.CountIn | packages/database/prisma/backfill-ai-history-plan-b.ts:180-206 | one event adds its share to the bucket of its key |
| Rollups.RollupsConserve | packages/database/prisma/backfill-ai-history-plan-b.ts:179-207 | every column sums, over all buckets, to the sum over all events |
| Rollups.BucketIsItsGroup | packages/database/prisma/backfill-ai-history-plan-b.ts:179-207 | a key has a bucket if and only if an event has it, and the bucket is the aggregate of those events |
| Rollups.RowCountsAddUp | packages/database/prisma/backfill-ai-history-plan-b.ts:198-200 | in each row success plus failed equals requests, which count its events |
| Rollups.CountsAddUp | packages/database/prisma/backfill-ai-history-plan-b.ts:198-200 | over any events request counts sum to their number, and uniform status puts them on one side |
| Rollups.RowsPartitionEvents | packages/database/prisma/backfill-ai-history-plan-b.ts:181-182 | every event is counted in exactly one row, and rows differ in their unique columns |
| Rollups.KeyIsInjective | packages/database/prisma/backfill-ai-history-plan-b.ts:181 | with bars in the model name at most, keys are equal if and only if the dimensions are |
| Rollups.RowHoldsItsDimensions | packages/database/prisma/backfill-ai-history-plan-b.ts:181-197 | a row then holds exactly the events of its own dimensions |
| Rollups.WrittenEventsStayApart | packages/database/prisma/backfill-ai-history-plan-b.ts:181-197 | for events as they are written, with a known type and status and no bar in user id and day key, keys are equal if and only if the dimensions are, and each row is exactly the group of its dimensions |
| Rollups.RowMeaning | packages/database/prisma/backfill-ai-history-plan-b.ts:183-206 | each row sums up, column by column, exactly the events of its user, day, model, type and status |
| Rollups.EventHasItsRow | packages/database/prisma/backfill-ai-history-plan-b.ts:180-206 | each event has the row of its user, day, model, type and status |
| Rollups.ColumnsSumUp | packages/database/prisma/backfill-ai-history-plan-b.ts:198-205 | every column is the sum of the events' values of that name, absent costs and durations counting as zero |
| LifecycleTrend.BuildAdminSecurityLifecycleTrend | apps/api/src/platform.service.ts:3254-3322 | four consecutive buckets of six hours up to the end, each counting per kind exactly the items it covers |
| LifecycleTrend.BucketMeaning | apps/api/src/platform.service.ts:3295-3313 | what each field of each bucket counts: one event type over six hours |
| LifecycleTrend.EndMeaning | apps/api/src/platform.service.ts:3259-3269 | the trend ends at the full hour after the latest readable timestamp, or after the clock, and covers a day |
| LifecycleTrend.EmptyBuckets | apps/api/src/platform.service.ts:3272-3282 | the loop makes exactly four buckets, with their starts |
| LifecycleTrend.EndIsPastEverything | apps/api/src/platform.service.ts:3259-3267 | no readable timestamp is at or past the end, and the latest is in the last hour |
| LifecycleTrend.IndexCovers | apps/api/src/platform.service.ts:3295 | an in-window timestamp gets an index among the four, of the bucket that covers it |
| LifecycleTrend.TrendAgainstFindings | apps/api/src/platform.service.ts:3367-3383 | each kind's buckets sum to its items since the window start, never above its finding, and equal to it if and only if all its items are readable and in the window |
| Text.SpacesAre | apps/api/src/ai/ai-proxy.service.ts:2020 | the twenty-five characters that trimming takes away, which are WhiteSpace and LineTerminator of ECMA-262, sections 12.2 and 12.3 |
| Text.TrimIsSlice | apps/api/src/ai/ai-proxy.service.ts:2020 | trimming takes away spaces at both ends, all of them and nothing else |
| Text.TrimFixesTrimmedIfTrimmed | packages/extension/src/platform-state.ts:21-29 | trimming changes nothing if and only if there is no space at either end |
| Text.SplitUndoesJoin | apps/api/src/platform.service.ts:3778 | splitting undoes joining if and only if there is a part and no part holds the separator |
| Text.IncludesIff | packages/extension/src/platform-runtime.ts:54-62 | a text includes a part if and only if the part occurs in it |

## Left out

- HTTP, Prisma, Redis, queues, timers and the wiring of the services: tables are values, and the network is a choice of outcomes.
- Hashing, encryption and the generation of tokens and ids.
- The interleaving of database calls inside one server operation, and of an append with a flush.
- UTF-8 decoding: the inspector starts from decoded text, and the text that flushing the decoder yields holds no line feed.
- SessionProtocol: the retry after a 401 is two separate requests to ensure a session, the second forced; the request in between is not modelled.
- InstallationSessions: validation of environment and handshake is one outcome of the request; device metadata comes already trimmed and shortened.
- InstallationSessions: lifecycle events, log lines and the bootstrap payload are not part of the replies.
- TelemetryBuffer: events of the extension's own lifecycle other than the reconnect request are ordinary appended events.
- ScenarioStore: the preset's install counter and its visibility check; other stored rows that predate the normaliser.
- ScenarioConfig: a column of the stored JSON that predates the normaliser is covered only as `existing` input of the normaliser.
- Pricing: the rounding error of floating-point numbers, and NaN or infinite costs.
- Pricing: the wallet itself. The debit is the amount asked for; its idempotency and the ledger are not part of this model.
- KeySelection: error messages, the listing of the catalog, and the record of a request that exceeds its quota.
- Compatibility: reading a version part as a number is a parameter; feature flags and the locale-dependent sort of their keys.
- RemoteConfig: NaN priorities, and values that are objects with identity.
- LogThrottle: which paths count as expected 401 responses, and the text of the log lines.
- CsvExport: the quota and usage-event exports, which use the same printer. The reader takes a line feed as the record separator and `\r` as ordinary text, as the printer does; RFC 4180 itself separates records with CRLF.
- HistoryBackfill: batch sizes that are negative or no number; ids are ranks in the database's order; requests do not change while the backfill runs.
- Rollups.RollupTable.RebuildRollups: requires a positive batch size unless there are no events; with zero the write loop of the script never ends, as `WriteLoopEndsIff` proves of its turns.
- Rollups.RollupTable.WriteChunks: requires a positive batch size unless there is nothing to write, for the same reason.
- LifecycleTrend: dates beyond the range of the language, and the findings that search the text of an item.
- Controllers, web application, permissions, retention, email, environment validation, seeds and demo data, which would add only members that read off a branch.
