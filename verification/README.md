# Verification of the panel's state machines

3AX-UI is a panel for VPN servers. It keeps its clients in a database and drives an Xray core, two kinds of
WireGuard tunnels, a WebSocket hub, a shared `ndppd.conf` and a few background jobs. This project models the parts
that carry state from one request to the next and proves what every run of them keeps.

## What is modelled

- **Clients and the live core** (`PanelModel`, `PanelSteps`, `PanelService`). Every client exists three times: in an
  inbound's settings list, in a traffic row, and as a user inside the running core. `PanelSteps` says what each
  operation does to the three copies as a function on states, and `PanelService.InboundService` is the imperative
  service, each method proved against its function. The core is a partner whose API calls may work, fail, or take
  effect and still report an error; its answers are a parameter (`Answers`). `PanelConsistency` proves that settings
  and rows describe the same clients, `PanelAgreement` and `PanelTick` that the core holds what a fresh configuration
  would give it, `PanelRuns` both over whole runs, and `PanelLedger` the accounting of bytes. `PanelRequests` says when
  each request is carried out and all that it changes, `PanelOutcomes` what a tick, a restart and the job leave behind,
  and `PanelFindings` what follows for limits and lost users.
- **The configuration loop** (`XrayConfig`): the in-place removal that ranges over a stale slice header.
- **Renewal loops** (`Renewal`): both variants, with closed forms.
- **Ports and tags** (`Ports`).
- **Address allocation** (`Decimal`, `Ipam`) with the 32-bit and 64-bit arithmetic of the original.
- **WireGuard and AmneziaWG peers** (`PeerModel`, `PeerService`, `PeerRuns`, `PeerLedger`, `PeerOutcomes`). The two
  services are the same code on different tables, so there is one model.
- **The WebSocket hub** (`HubModel`, `HubOutcomes`, `HubSafety`, `HubBlocking`, `HubLoop`): atomic steps of Run, its
  workers, the callers and the write pumps, interleaved in any order, with the buffer sizes 512, 100, 100 and 2048.
- **Marked sections in ndppd.conf** (`NdppdText`, `NdppdProofs`, `NdppdRuns`): leftmost non-greedy replacement.
- **The IP limit job** (`IpLimit`), **CPU history** (`CpuHistory`), **the replaying connection** (`ReplayConn`) and
  **traffic reports** (`TrafficStats`).

Clocks, random values, database ids, keys, replies of other processes and results of parsers are parameters.

## Where the code does not do what it says

Each of these is a lemma; the condition under which the code does meet the property is proved beside it, in both
directions where the table says so.

- The 30-second job lowers the restart flag before the restart reads it, so a lost user is forgotten when the
  configuration is the one last started (`PanelTick.JobAgreesIff`, `PanelFindings.JobForgetsLostUser`).
- Renewal gives a client back to the core without looking at the settings' enable flag
  (`PanelTick.RenewAgreesIff`, `PanelTick.RenewIsSafeIff`).
- Renewal hands the core's AddUser the settings client itself. A Shadowsocks client has no `cipher` key there, so
  renewing a disabled row of one panics: both tables are saved, no flag is raised, nothing is disabled and a restart
  under way ends (`PanelTick.PanickedTick`, `PanelService.InboundService.AddTraffic`). The next restart succeeds
  (`PanelTick.RestartAfterPanic`). Which calls come before the panic depends on the order the database lists
  the due inbounds in, which the model leaves open: a call that is not made counts as one that fails, as neither
  changes the core or, with a panic, the flag. So the results range over every set of calls made, whatever the order,
  and each of them comes about when the Shadowsocks inbounds are last and the calls left out fail.
- A configuration turns the VLESS flow `xtls-rprx-vision-udp443` into `xtls-rprx-vision`; the calls of adding, updating,
  resetting and renewing a client and of adding an inbound send it as it is, and no flag is raised
  (`PanelAgreement.AddAgreesIff`, `PanelAgreement.UpdateAgreesIff`, `PanelAgreement.ResetAgreesIff`,
  `PanelTick.RenewAgreesIff`, `PanelTick.FilteredIffEnabled`).
- A new inbound goes to the core unfiltered (`PanelTick.AddInboundAgreesIff`); a client with an empty email in it gets
  a traffic row that owns nothing (`PanelConsistency.AddInboundKeepsConsistentIff`).
- The bulk reset of the periodic job re-enables rows without raising the flag (`PanelTick.ResetAllAgreesIff`).
- The Xray renewal loop may return an expiry that is already over (`Renewal.XrayRenewalExpiresAtOnce`); such a client
  ends the tick disabled (`PanelFindings.RenewedEndsEnabledIff`).
- A pass of the configuration loop is wrong exactly when its email occurs more than once and not only at the end of the
  list (`XrayConfig.StalePassIsRemovalIff`): it may keep a disabled client and drop an active one
  (`XrayConfig.ConfigLoopDropsTheWrongClient`). AddInbound lets such lists in, with clients that have no email
  (`PanelFindings.NamelessClientsMisleadTheLoop`).
- A `BEGIN` marker without its `END` makes a second Apply swallow the text in between (`NdppdProofs.ApplyIsIdempotentIff`).
- An IPv6 pool with 63 host bits or more, so every /64, never yields an address (`Ipam.WidePoolsAreExhausted`).
- Resetting a peer's counters makes the next sample count the stored bytes again (`PeerLedger.ErasedIsCountedAgain`),
  and the next sample after a renewal brings the used-up quota back (`PeerLedger.RenewedQuotaReturns`).
- A peer added disabled is stored and served enabled, because of the column's default (`PeerRuns.AddedDisabledIsEnabled`).
- Saving a disabled tunnel server, and a bulk reset whose unconditional update is rejected, leave the running
  interface behind (`PeerRuns.SyncedStepIff`). GORM rejects an update without a condition unless told otherwise, which
  `database/db.go:143-145` does not, so the bulk reset never empties a counter (`PeerRuns.RejectedResetEmptiesNothing`).
- The IP limit job is said to protect the original connections; it keeps the addresses whose last packet is oldest
  (`IpLimit.AlwaysKeptIff`, `IpLimit.ActiveOriginalIsBanned`).
- An unregister that Run reads before the client's register is spent: the client stays in the hub with a channel nobody
  reads until its buffer is full (`HubSafety.OrderDecides`, `HubSafety.UnattendedUntilFull`).
- A tunnel inbound keeps its old tag when its port moves, so a free port can be refused (`Ports.FreePortRejectedIff`).

## Model

| member | source | states |
|---|---|---|
| PanelModel.ApiUserIsConfigUser | web/service/xray.go:150-158 | the user an API call gives to the core is the one a configuration gives it, if and only if it is not a VLESS client with the udp443 flow, which only the configuration rewrites |
| PanelConsistency.AddKeepsConsistent | web/service/inbound.go:657-773 | adding clients keeps non-empty emails unique ignoring case and the rows exactly those of the clients, with equal expiry, total and reset |
| PanelConsistency.DelKeepsConsistentIff | web/service/inbound.go:775-861 | deleting by key keeps that agreement if and only if all non-empty emails under the key are the one whose row is deleted |
| PanelConsistency.UpdateKeepsConsistent | web/service/inbound.go:863-1036 | a successful update of a client keeps the agreement, renames included |
| PanelConsistency.TickKeepsConsistent | web/service/inbound.go:1038-1080 | a traffic tick (crediting, delayed start, renewal, disabling) keeps it, for any reports and any four clock readings |
| PanelConsistency.ResetKeepsConsistent | web/service/inbound.go:1880-1940 | resetting one client keeps it |
| PanelConsistency.ResetAllKeepsConsistent | web/service/inbound.go:1942-1977 | resetting all clients keeps it |
| PanelConsistency.DelInboundKeepsConsistent | web/service/inbound.go:405-461 | deleting an inbound keeps it |
| PanelConsistency.AddInboundKeepsConsistentIff | web/service/inbound.go:216-332 | adding an inbound keeps it if and only if none of its clients has an empty email |
| PanelConsistency.RestartKeepsConsistent | web/service/xray.go:222-250 | a restart, which runs a tick first, keeps it |
| PanelRequests.LowerIffSameLetters | web/service/inbound.go:158-166 | emails count as the same exactly when they differ in the case of letters at most |
| PanelRequests.LoadedIsUserOf | web/service/xray.go:150-158 | a configuration makes of a client the user its protocol authenticates, with one flow turned into the other |
| PanelRequests.AddUserCalls | xray/api.go:105-188 | AddUser speaks to the core for four protocols and reports success for the others; what the core then holds, for each way a call can turn out |
| PanelRequests.RemoveUserCalls | xray/api.go:189-206 | the same for RemoveUser |
| PanelRequests.AddAcceptedIff | web/service/inbound.go:657-706 | adding clients is carried out if and only if the inbound is there, every client has its key, and no email of the request is taken |
| PanelRequests.AddChangesTables | web/service/inbound.go:708-740 | then the clients stand at the end of the list, and each new email has a row with the client's limits and nothing counted |
| PanelRequests.AddChangesCore | web/service/inbound.go:738-772 | and a restart is asked for exactly when a client has no email or a call goes wrong; the core gains exactly the users whose calls took effect |
| PanelRequests.DelAcceptedIff | web/service/inbound.go:775-836 | a deletion is carried out if and only if the inbound keeps a client and the last one under the key has no email or has a row |
| PanelRequests.DelChangesList | web/service/inbound.go:797-821 | then all clients under the key are gone from the list and the others stay in order |
| PanelRequests.DelChangesRow | web/service/inbound.go:832-858 | and the last one's row is gone, its user by one call if both flags were up |
| PanelRequests.DelChangesNothingElse | web/service/inbound.go:797-836 | a key that names nobody changes no row, no user and no flag |
| PanelRequests.RunKeepsSomeClient | web/service/inbound.go:810-812 | along every run an inbound that has a client keeps having one for as long as it exists |
| PanelRequests.UpdateAcceptedIff | web/service/inbound.go:863-937 | an update is carried out if and only if the key finds a client, the new one has its key, and its email is empty, unchanged or free |
| PanelRequests.UpdateChangesTables | web/service/inbound.go:938-1005 | then the client takes the place of the first one under the key, and rows are edited, moved, added or deleted by which emails are empty |
| PanelRequests.UpdateChangesCore | web/service/inbound.go:1006-1036 | and the old user is removed and the new one added, each if enabled, with a restart asked for exactly when a call goes wrong or there was no old email |
| PanelRequests.ResetAcceptedIff | web/service/inbound.go:1880-1912 | when a reset is carried out |
| PanelRequests.ResetChanges | web/service/inbound.go:1884-1940 | the row is enabled and emptied, and a user is given back only to a row that was disabled |
| PanelRequests.ResetAllChanges | web/service/inbound.go:1942-1976 | which rows a bulk reset clears, and that the controller alone raises the flag |
| PanelRequests.NewInboundAcceptedIff | web/service/inbound.go:216-281 | when a new inbound is stored |
| PanelRequests.NewInboundChanges | web/service/inbound.go:283-331 | it is stored as sent, with a row for each email, and sent whole to the core if enabled |
| PanelRequests.DropInboundChanges | web/service/inbound.go:405-448 | an inbound goes with its rows, and from the core if it was enabled |
| PanelAgreement.EmitIsGenerated | web/service/xray.go:118-170 | the users a configuration gives an inbound are what the in-place loop over its settings emits, seen as users |
| PanelAgreement.AddAgreesIff | web/service/inbound.go:718-770 | with no restart requested, and whatever flows the panel already has, the core agrees after adding clients if and only if no enabled new client has the udp443 flow, or the inbound is not served |
| PanelAgreement.DelAgreesIff | web/service/inbound.go:775-861 | with no restart requested, the core agrees after a deletion if and only if no active client under the key is other than the last one found, which alone is removed from the core |
| PanelAgreement.UpdateAgreesIff | web/service/inbound.go:863-1036 | with no restart requested, the core agrees after an update if and only if the new client is disabled or without the udp443 flow, or the inbound is not served |
| PanelAgreement.ResetAgreesIff | web/service/inbound.go:1880-1940 | with no restart requested, the core agrees after a reset if and only if the inbound named in the request is the one to give the user back to and its flow is not rewritten, or nothing was to be given back |
| PanelTick.ClientTrafficAgrees | web/service/inbound.go:1105-1220 | crediting traffic and starting delayed clients leaves the core in agreement |
| PanelTick.RenewAgreesIff | web/service/inbound.go:1222-1316 | whatever the core answers, it agrees after renewal if and only if, in inbounds in service, the re-added clients that reach it are exactly those enabled in the settings and none of them has the udp443 flow; Shadowsocks clients never reach it |
| PanelTick.RenewIsSafeIff | web/service/inbound.go:1269-1312 | agreement or a raised flag follows for every way the calls may turn out if and only if a condition on the due rows holds before them: without a panic, no re-added client is disabled in the settings or has the udp443 flow, or some call is bound to fail; with one, only disabled Shadowsocks clients were to be added, for every order of the due inbounds |
| PanelTick.DisableAgrees | web/service/inbound.go:1352-1396 | disabling invalid clients keeps agreement or requests a restart, when a call that failed without effect is reported |
| PanelTick.DisableInboundsAgrees | web/service/inbound.go:1318-1350 | the same for disabling invalid inbounds |
| PanelTick.TickAgrees | web/service/inbound.go:1038-1080 | a whole tick that completes and re-adds no client disabled in the settings or with the udp443 flow leaves agreement or a restart request |
| PanelTick.PanickedTick | xray/api.go:145-158 | a tick whose renewal re-adds a Shadowsocks client ends there: it leaves every due row renewed and enabled, nothing disabled, the flag as it was, and the core with at most the users of earlier calls |
| PanelTick.RestartAfterPanic | web/service/xray.go:222-250 | after a restart that panicked, the next one at the same clock completes and leaves agreement |
| PanelTick.ResetAllAgreesIff | web/job/periodic_traffic_reset_job.go:51-66 | the periodic reset keeps agreement if and only if it gives no enabled client back |
| PanelTick.DelInboundAgrees | web/service/inbound.go:405-461 | deleting an inbound leaves agreement or a restart request |
| PanelTick.AddInboundAgreesIff | web/service/inbound.go:302-331 | a new inbound that the core accepted agrees if and only if the raw user of each of its clients is one that a configuration gives, since its settings are sent unfiltered and with their flows |
| PanelTick.FilteredIffEnabled | web/service/inbound.go:302-331 | without empty emails that is: all its clients are enabled and none has the udp443 flow |
| PanelTick.ForcedRestartAgrees | web/service/xray.go:222-250 | after a forced restart whose tick completes the core agrees, whatever it was before |
| PanelTick.JobAgreesIff | web/web.go:306-313 | the job always lowers the flag, and the core agrees afterwards if and only if it agreed already after the job's tick, or the tick completed and the configuration differs from the one last started |
| PanelRuns.DistinctKeysSuffice | web/service/inbound.go:775-861 | distinct keys and non-empty emails in an inbound meet the condition of a deletion |
| PanelRuns.StepAgreesIff | web/service/inbound.go:657-1396 | outside the tick and the job the guard is exact: a request that is carried out and raises no flag leaves the core in agreement if and only if it met its guard, whatever the core answered |
| PanelRuns.StepKeepsInv | web/service/inbound.go:657-1396 | every guarded step, one whose renewal does not panic among them, keeps, on panels with any flows: copies consistent, and the core in agreement or a restart requested |
| PanelRuns.RunKeepsInv | web/service/inbound.go:657-1396 | the same along every run of any length, API calls failing at any point |
| PanelRuns.RunKeepsConsistent | web/service/inbound.go:158-186 | along every run in which deletions and new inbounds meet their conditions the copies stay consistent, with no condition on the core |
| PanelLedger.StepRow | web/service/inbound.go:1136-1150 | a step adds to a row's AllTime exactly what it reports for that email, and AllTime - (Up + Down) grows by exactly what the step erases, also where the step renames the row |
| PanelLedger.RenameCarries | web/service/inbound.go:1436-1452 | an update from one email to another takes the row with its counters along and touches no other |
| PanelLedger.RowAlongRun | web/service/inbound.go:1266-1268 | over every run, followed through its renames, a row's AllTime grows by exactly its reported bytes, and its lead over Up + Down is exactly what renewals and resets erased |
| PanelLedger.RunKeepsSolvent | web/service/inbound.go:1929-1931 | along every run with non-negative reports AllTime >= Up + Down and counters stay non-negative in every row |
| PanelLedger.TakenIsDelivered | web/service/inbound.go:1136-1150 | with one report per email, what the rows take is the sum of the reports that find a row |
| PanelLedger.TickConservesBytes | web/service/inbound.go:1038-1080 | with one report per email, the total of AllTime over all rows grows in a tick by exactly the delivered bytes: none is lost or lands twice |
| PanelLedger.RunConservesBytes | web/service/inbound.go:657-1396 | over every run with one report per email in each tick, and nothing asked of the core, the total of AllTime at the end and what deleted rows had counted are together the total at the start and the delivered bytes |
| PanelOutcomes.TickRowIs | web/service/inbound.go:1038-1396 | every field of a row after a tick that completes, from the row before and its report: counters, start, renewal, limits |
| PanelOutcomes.TickInboundIs | web/service/inbound.go:1082-1350 | every field of an inbound after it, whose clients change in their expiry alone |
| PanelOutcomes.TagSums | web/service/inbound.go:1082-1102 | an inbound's bytes do not depend on the order or grouping of the reports |
| PanelOutcomes.TickConservesInboundBytes | web/service/inbound.go:1082-1102 | with distinct tags, the total of AllTime over all inbounds grows in a completed tick by exactly the bytes reported for their tags |
| PanelOutcomes.RenewChangesCore | web/service/inbound.go:1222-1316 | whom renewal gives back to the core, when it panics and when it asks for a restart |
| PanelOutcomes.DisableChangesCore | web/service/inbound.go:1352-1396 | whose users leave the core when rows are disabled, and when a restart is asked for |
| PanelOutcomes.DisableInboundsChangesCore | web/service/inbound.go:1318-1350 | the same for inbounds |
| PanelFindings.TickEnforcesLimits | web/service/inbound.go:1390-1394 | after a completed tick an enabled row has used less than its quota and its expiry is ahead, and a row disabled by it has reached one of them |
| PanelFindings.TickEnforcesInboundLimits | web/service/inbound.go:1344-1348 | the same for every inbound |
| PanelOutcomes.ConfigInbounds | web/service/xray.go:90-110 | a configuration holds the enabled inbounds but those of the two tunnels |
| PanelOutcomes.ConfigHolds | web/service/xray.go:110-165 | each with its clients in order, but those disabled in the settings or by a row of that inbound |
| PanelOutcomes.LoadHolds | web/service/xray.go:241-246 | what the core holds when it has started with a configuration |
| PanelOutcomes.RestartRecords | web/service/xray.go:221-250 | a restart that completes leaves in `started` the configuration of the tables it leaves, and starts the core exactly when forced, flagged or changed |
| PanelOutcomes.JobRecords | web/service/xray.go:233-246 | the same for the job with the flag up |
| PanelOutcomes.StartedAlongRun | web/service/xray.go:233-246 | along every run `started` is the configuration at the last restart that completed, or the initial one |
| PanelFindings.DelayedStartOnce | web/service/inbound.go:1164-1220 | a delayed start becomes now plus its span at the first report and no later report moves it |
| PanelFindings.RenewedEndsEnabledIff | web/service/inbound.go:1261-1268 | in a tick that completes at one clock value a renewed row ends enabled if and only if the clock is not on a renewal boundary |
| PanelFindings.QuietTick | web/service/xray.go:106-106 | a tick with no reports, nothing due and nothing over a limit changes nothing |
| PanelFindings.JobForgetsLostUser | web/web.go:306-313 | from any agreeing state: delete a client, add it back while the core fails, let the job run; the flag was raised and is down and the core lacks the user |
| PanelService.InboundService.CheckEmailsExist | web/service/inbound.go:168-186 | the scan reports a clash exactly when the request repeats an email or one of another client, ignoring case |
| PanelService.InboundService.AddInboundClient | web/service/inbound.go:657-773 | takes the stored state to the specified one, rejected requests changing nothing |
| PanelService.InboundService.DelInboundClient | web/service/inbound.go:775-861 | likewise for deletion by key, of which it removes all and deletes one row |
| PanelService.InboundService.UpdateInboundClient | web/service/inbound.go:863-1036 | likewise for the update |
| PanelService.InboundService.ResetClientTraffic | web/service/inbound.go:1880-1940 | likewise for the reset |
| PanelService.InboundService.AddInboundTraffic | web/service/inbound.go:1082-1103 | each inbound takes the reports of its tag |
| PanelService.InboundService.AdjustTraffics | web/service/inbound.go:1164-1220 | the nested loops over inbounds and clients start each reported delayed client in both copies |
| PanelService.InboundService.AddClientTraffic | web/service/inbound.go:1105-1162 | each reported row takes its report once |
| PanelService.InboundService.AutoRenewClients | web/service/inbound.go:1222-1316 | the loops renew every due row in both copies and re-add exactly the previously disabled ones; the calls, in any order, panic exactly when a Shadowsocks client is among them |
| PanelService.InboundService.DisableInvalidClients | web/service/inbound.go:1352-1396 | removes from the core and disables exactly the rows over quota or expired |
| PanelService.InboundService.DisableInvalidInbounds | web/service/inbound.go:1318-1350 | the same for inbounds |
| PanelService.InboundService.AddTraffic | web/service/inbound.go:1038-1080 | the whole tick, its parts in order, each with its own clock reading, or the first three when renewal panics |
| PanelService.InboundService.AddInbound | web/service/inbound.go:216-332 | likewise for a new Xray inbound |
| PanelService.InboundService.DelInbound | web/service/inbound.go:405-461 | likewise for deleting one |
| PanelService.InboundService.GetXrayConfig | web/service/xray.go:95-200 | ticks, then, unless the tick panics, emits for each enabled Xray inbound its clients that are enabled and not disabled by their row |
| PanelService.InboundService.RestartXray | web/service/xray.go:222-250 | loads the new configuration unless the tick panics, or the configuration equals the one last started, no force is asked and the flag is down |
| PanelService.InboundService.CheckRestartJob | web/web.go:306-313 | lowers the flag, then restarts without force |
| XrayConfig.StalePassIsRemovalIff | web/service/xray.go:127-139 | on every list, one pass over the stale slice removes the clients of the email and nothing else if and only if at most one has it or they all stand at the end |
| XrayConfig.StalePassesAreRemoval | web/service/xray.go:127-139 | the passes for all disabled rows remove exactly their clients when each email meets that condition at its turn |
| XrayConfig.LastPassDecides | web/service/xray.go:127-139 | when all passes but the last are right, the whole loop is right if and only if the email of the last one meets that condition |
| XrayConfig.PassesCanCancelOut | web/service/xray.go:127-139 | two wrong passes can make a right loop: the first removes the client the second was to remove |
| XrayConfig.DistinctIsRemovable | web/service/xray.go:127-139 | emails that occur once meet it |
| XrayConfig.ConfigLoopIsFilter | web/service/xray.go:127-160 | then removal and enable pass together equal the order-preserving filter "row not disabled and client enabled" |
| XrayConfig.ConfigLoopDropsTheWrongClient | web/service/xray.go:127-139 | in a list x, b, x', c with x and x' of one disabled email the loop keeps x' and drops b |
| PanelFindings.NamelessClientsMisleadTheLoop | web/service/inbound.go:188-214 | AddInbound accepts such a list with two clients without an email, the next disabling step disables their row, and the loop then drops the active client |
| XrayConfig.RemoveIndex | web/service/xray.go:90-92 | shifts the shared array in place by one from the index on |
| XrayConfig.RemoveDepleted | web/service/xray.go:127-139 | the loop on the aliased array does what the stale-slice model says |
| XrayConfig.FilterClients | web/service/xray.go:118-160 | the whole loop on the array equals the filter |
| Renewal.LeastAtLeast | web/service/inbound.go:1261-1264 | the closed form is the least value reachable in whole periods that is not below the bound |
| Renewal.NextExpiryIsLeast | web/service/inbound.go:1261-1264 | the Xray loop's value is the least one not below the clock, in [now, now + period) |
| Renewal.NextPeerExpiryIsLeast | web/service/awg_service.go:713-716 | the tunnel loop's value is the least one above the clock, in (now, now + period] |
| Renewal.XrayRenewalExpiresAtOnce | web/service/inbound.go:1261-1264 | the Xray loop returns an expiry that is already over if and only if the clock is a whole number of periods past the old one |
| Renewal.RenewXray | web/service/inbound.go:1261-1264 | the loop terminates with the closed form and no 64-bit overflow while one period past the clock fits |
| Renewal.RenewPeer | web/service/awg_service.go:713-716 | the same for the tunnel loop |
| TrafficStats.ClientMapIsLast | xray/api.go:270-286 | a client has a report exactly when a counter names it, holding the last value of each direction |
| TrafficStats.ClientMapConserves | xray/api.go:229-241 | when each counter comes once, the reports hold exactly the bytes of the counters |
| TrafficStats.CoreBytesAreDelivered | xray/api.go:229-241 | then the panel's ledger is delivered all of them, in one report per email |
| TrafficStats.TagMapIsLast | xray/api.go:243-268 | a tag other than api has one report, with the last values and the kind of its first counter |
| TrafficStats.GetTraffic | xray/api.go:208-241 | the loop computes those maps and lists the client reports once each, in any order |
| Ports.PortExistsIff | web/service/inbound.go:100-128 | the two queries find an inbound exactly when one conflicts: same port, and same listen address or either listens everywhere |
| Ports.ConflictIsSymmetric | web/service/inbound.go:100-128 | the conflict is symmetric |
| Ports.RunKeepsInv | web/service/inbound.go:477-610 | along every run of adding, updating, deleting and tunnel port changes no two Xray inbounds conflict and each has the tag of its address |
| Ports.RequestsAre | web/service/inbound.go:216-610 | when a request to add, update or delete an inbound is carried out, in terms of addresses, ports and tags, and the one row that it changes |
| Ports.TagsEqualIff | web/controller/inbound.go:115-119 | tags are equal if and only if ports are and listen addresses are, or both listen everywhere |
| Ports.TagsAreDistinct | web/controller/inbound.go:115-119 | so the tags of Xray inbounds are pairwise distinct |
| Ports.FreePortRejectedIff | web/service/inbound.go:334-400 | an inbound that passes the port check fails on its tag if and only if a tunnel inbound holds that tag from a port it left |
| Decimal.DecReadsBack | shared/ipam/ipam.go:42-43 | a decimal text reads back as its number |
| Decimal.DottedIsInjective | shared/ipam/ipam.go:42-43 | different 32-bit addresses print different dotted quads |
| Ipam.StripMaskCuts | shared/ipam/ipam.go:103-109 | stripping the mask gives back the address |
| Ipam.LastOffset | shared/ipam/ipam.go:34-39 | the 32-bit bound hostCount-1 is 2^bits - 1 for every prefix, also for /0 where the count wraps to 0 |
| Ipam.Pool4Fits | shared/ipam/ipam.go:29-36 | base plus offset never leaves 32 bits, also for IPv4-mapped pools |
| Ipam.Allocate4IsLeastFree | shared/ipam/ipam.go:14-48 | an allocated IPv4 address is the least free offset in 2..hostCount-2 and differs from every used text, masks stripped |
| Ipam.Allocate4Succeeds | shared/ipam/ipam.go:14-48 | allocation succeeds whenever peers and server are fewer than hostCount-3 |
| Ipam.AllocateIPv4 | shared/ipam/ipam.go:14-48 | the scan with 32-bit arithmetic returns that address or that error |
| Ipam.ShlInt64Values | shared/ipam/ipam.go:81-81 | the signed shift is 2^n up to 62 bits, negative at 63, zero from 64 |
| Ipam.Limit6Fits | shared/ipam/ipam.go:79-84 | the capped bound stays within the pool and 65536 |
| Ipam.NoCarry | shared/ipam/ipam.go:86-93 | base plus offset never carries into the prefix and fits 16 bytes |
| Ipam.To16Bytes | shared/ipam/ipam.go:91-93 | copying the minimal bytes to the end of 16 zero bytes encodes the candidate |
| Ipam.Allocate6IsLeastFree | shared/ipam/ipam.go:52-101 | an allocated IPv6 address is the least free offset in 2..min(2^bits, 65536)-1, in the pool's prefix, and new |
| Ipam.Allocate6Succeeds | shared/ipam/ipam.go:52-101 | allocation succeeds while peers and server are fewer than the offsets |
| Ipam.WidePoolsAreExhausted | shared/ipam/ipam.go:79-89 | with 63 host bits or more, and for IPv4 pools, allocation always fails |
| Ipam.AllocateIPv6 | shared/ipam/ipam.go:52-101 | the scan with the 64-bit shift returns that address or that error |
| PeerRuns.StepKeepsInv | web/service/awg_service.go:323-548 | every operation keeps addresses, keys, UUIDs, emails and ids of peers pairwise distinct and clear of the server's addresses |
| PeerRuns.RunKeepsApart | web/service/awg_service.go:323-548 | the same along every run |
| PeerRuns.AddSucceeds | web/service/wg_service.go:293-383 | a client with a new UUID, given or generated, and a new email is added while the pigeonhole bound of each pool in use holds, with IPv6 on or off |
| PeerOutcomes.AddAcceptedIff | web/service/awg_service.go:323-407 | a client is added if and only if its UUID parses and is unused, the pools in use have an address, and its email is unused; otherwise nothing changes |
| PeerOutcomes.AddedIs | web/service/awg_service.go:340-423 | the new peer has the limits and counters of the request, its new keys and addresses, and is enabled; the server differs in its flag alone |
| PeerOutcomes.DeleteIs | web/service/awg_service.go:463-491 | the peer with the id goes and no other |
| PeerOutcomes.ToggleIs | web/service/awg_service.go:531-539 | its flag changes and nothing else |
| PeerOutcomes.UpdateIs | web/service/awg_service.go:425-460 | what is sent is stored but for id and UUID, unless another peer has the email |
| PeerOutcomes.ResetIs | web/service/awg_service.go:577-584 | Up and Down of the one peer are emptied |
| PeerOutcomes.ResetAllIs | web/service/awg_service.go:784-814 | which peers a bulk reset enables, and what it empties |
| PeerOutcomes.ServerStepsAre | web/service/awg_service.go:69-529 | what saving, switching and emptying a server leaves in it and in the interface |
| PeerOutcomes.DefaultsAre | web/service/awg_service.go:99-174 | the default server has the first address of its own /24 pool |
| PeerRuns.AddedDisabledIsEnabled | database/model/awg.go:92 | a client added disabled is stored and served enabled |
| PeerRuns.RejectedResetEmptiesNothing | web/service/awg_service.go:784-800 | a bulk reset whose unconditional update is rejected empties no counter and re-enables peers the interface does not learn of |
| PeerRuns.WideIPv6PoolAddsNobody | web/service/awg_service.go:380-388 | with an IPv6 pool of 63 host bits or more no client can be added and nothing changes |
| PeerRuns.SyncedStepIff | web/service/awg_service.go:841-872 | while commands work, a step keeps "the interface knows exactly the enabled peers" unless it is one of two named cases, and then it does not |
| PeerRuns.RunKeepsSynced | web/service/awg_service.go:841-872 | the same along every run |
| PeerLedger.TotalsBalance | web/service/awg_service.go:634-648 | over any events a peer's AllTime grows by exactly the rises of its counters, and its lead over them by exactly their falls |
| PeerLedger.MonotoneTelescopes | web/service/awg_service.go:634-648 | with monotone counters and no reset the sum telescopes to last minus first |
| PeerLedger.ErasedIsCountedAgain | web/service/awg_service.go:577-592 | a reset makes the next sample count again exactly what of the stored bytes the interface still reports |
| PeerOutcomes.RenewedQuotaReturns | web/service/awg_service.go:698-735 | the first sample after a renewal restores the interface's counters, and the next tick disables the peer if and only if it is not due again and they reach the quota |
| PeerLedger.SampleAllAt | web/service/awg_service.go:616-675 | each peer takes the reports for its own key, in order, and no others |
| PeerLedger.CountersAlongRun | web/service/wg_service.go:550-640 | after any run a peer's counters are the replay of its own events |
| PeerLedger.RunTotals | web/service/awg_service.go:595-695 | over any run AllTime never falls, grows by exactly the rises, and leads the counters by exactly what they lost |
| PeerLedger.RunKeepsSolvent | web/service/awg_service.go:577-695 | AllTime >= Upload + Download in every peer of every run |
| PeerOutcomes.TickPeerIs | web/service/awg_service.go:595-780 | every field of a peer after a tick, from the peer before and the samples of its key |
| PeerOutcomes.TickAppliesIff | web/service/awg_service.go:680-695 | the interface takes over the enabled peers exactly when a pass re-enabled or disabled one and the commands work |
| PeerOutcomes.IdleTick | web/service/awg_service.go:595-612 | with the server disabled or its interface unreadable nothing changes |
| PeerOutcomes.TickEnforcesLimits | web/service/awg_service.go:737-753 | after a tick an enabled peer has used less than its quota and its expiry is ahead; at one clock value that and a renewal decide the flag |
| PeerOutcomes.RunEnforcesLimits | web/service/awg_service.go:595-780 | the same at the end of every run that ends with such a tick |
| PeerOutcomes.RenewedEndsEnabledIff | web/service/awg_service.go:698-735 | a renewed peer ends enabled if and only if its new expiry is ahead of the limits' clock, so always at one clock value |
| PeerOutcomes.DelayedStartOnce | web/service/awg_service.go:757-780 | a delayed start becomes now plus its span once and no later pass converts it again |
| PeerOutcomes.ReconfigIffChanged | web/service/awg_service.go:679-692 | at one clock value the interface is reconfigured if and only if some peer's enable flag changed |
| PeerService.TunnelService.AddClient | web/service/awg_service.go:323-422 | checks, allocates, inserts, enables the server and reapplies, or fails without a change |
| PeerService.TunnelService.UpdateTrafficStats | web/service/awg_service.go:595-695 | samples, the three passes, and a reconfiguration when a pass changed a flag |
| PeerService.TunnelService.AutoRenewClients | web/service/awg_service.go:698-735 | renews every due peer and reports whether one was disabled |
| PeerService.TunnelService.AdjustDelayedStart | web/service/awg_service.go:757-780 | starts every waiting peer |
| PeerService.TunnelService.DisableInvalidClients | web/service/awg_service.go:737-753 | disables every invalid peer and reports whether there was one |
| HubSafety.HubIsSafe | web/websocket/hub.go:92-250 | along every interleaving in which a client registers once: each Send channel is closed at most once, nothing is sent on a closed one, the loop never panics, and what a client reads is an in-order subsequence of the broadcasts |
| HubSafety.StepKeepsInv | web/websocket/hub.go:92-250 | the invariant behind it, kept by every atomic step |
| HubSafety.NoLossWithoutFullBuffer | web/websocket/hub.go:185-250 | a client whose buffer was never full has been given every broadcast since Run took it in |
| HubSafety.RoomIs | web/websocket/hub.go:74-86 | when a request is queued and a delivery finds room: 100, 100, 2048 and 512 places |
| HubSafety.ChannelsNeverOverflow | web/websocket/hub.go:92-250 | along every run no channel holds more than its places |
| HubOutcomes.CallersAre | web/websocket/hub.go:253-376 | when Register, Unregister, Broadcast and Stop return and what they leave in the queues |
| HubOutcomes.ReceiveIs | web/controller/websocket.go:160-185 | a pump takes the oldest message of its channel |
| HubOutcomes.RunTakes | web/websocket/hub.go:92-132 | Run takes a request only between two fan-outs |
| HubOutcomes.UnregisterIs | web/websocket/hub.go:134-157 | what Run's close does to a known client's channel, and that an unknown one's is left alone |
| HubOutcomes.BroadcastIs | web/websocket/hub.go:159-215 | a broadcast goes to all clients known then, by as many workers as the pool allows |
| HubOutcomes.DeliverIs | web/websocket/hub.go:222-250 | a worker appends the message, or goes on to unregister a client whose channel is full |
| HubOutcomes.FanoutEnds | web/websocket/hub.go:185-250 | what a worker inside Unregister and the fan-out wait for |
| HubOutcomes.ShutdownIs | web/websocket/hub.go:103-122 | the shutdown closes each client that is left and stops when none is |
| HubSafety.RegisteringTwicePanics | web/websocket/hub.go:134-157 | the hypothesis of HubIsSafe is needed: unregistering, registering and unregistering again with messages waiting makes the loop panic (the one caller, web/controller/websocket.go, registers each client once) |
| HubSafety.OrderDecides | web/websocket/hub.go:124-157 | when a client's register and its only unregister both wait, the order in which Run reads the two channels decides: one leaves it closed and forgotten, the other known, open and with no unregister to come |
| HubSafety.UnattendedUntilFull | web/websocket/hub.go:134-250 | along every run without another unregister of it or a stop, a client left that way stays known and open until a delivery finds its buffer full |
| HubBlocking.StartingPressure | web/websocket/hub.go:159-179 | when Run takes a broadcast, the quantity that decides it is the number of full client buffers plus the unregisters already queued |
| HubBlocking.FanoutReturnsIff | web/websocket/hub.go:185-250 | the fan-out can return by its workers alone if and only if full buffers plus queued unregisters are at most 100 |
| HubBlocking.LowPressureNeverStuck | web/websocket/hub.go:185-250 | within that bound some worker can always move |
| HubBlocking.EveryScheduleReturns | web/websocket/hub.go:185-250 | within it, in every schedule of all parties in which no caller's unregister is queued, the workers have at most a fixed number of steps to make, and until the fan-out has returned one of them can be made |
| HubBlocking.OverPressureNeverReturns | web/websocket/hub.go:356-366 | beyond it no sequence of uncancelled steps ends the fan-out |
| HubBlocking.BlockedUntilCancelled | web/websocket/hub.go:356-366 | once all workers are stuck on the full channel the loop stays in the fan-out until cancellation |
| HubBlocking.OverPressureBlocks | web/websocket/hub.go:356-366 | beyond the bound the stuck state is reached |
| HubBlocking.CancelledFanoutReturns | web/websocket/hub.go:356-376 | after cancellation the fan-out always can return |
| HubLoop.HubObject.Shutdown | web/websocket/hub.go:103-122 | from every state of a run the shutdown loop ends stopped, with every client's channel closed exactly once and no other touched |
| NdppdProofs.StopUndoesApply | awg/ndp.go:37-94 | for a text without the manager's BEGIN marker, Stop after Apply leaves the trimmed text and a newline, or no file when nothing or only the header is left |
| NdppdProofs.StopUndoesFirstApply | awg/ndp.go:37-94 | from no file or an empty one, Stop after Apply leaves no file |
| NdppdProofs.ApplyIsIdempotentIff | awg/ndp.go:37-62 | a second equal Apply changes nothing if and only if the file has a whole section of the manager or no BEGIN marker of it |
| NdppdRuns.ApplyHolds | wg/ndp.go:38-68 | on a file of user text and sections, Apply sets one section and leaves the user text and the other section |
| NdppdRuns.StopHolds | wg/ndp.go:71-88 | Stop removes one section and leaves the rest |
| NdppdRuns.HoldsMeans | awg/ndp.go:34-35 | what that layout means for the text: each section found once, with its parameters, and the user text recovered by removing both |
| NdppdRuns.RunKeepsFile | awg/ndp.go:37-94 | after any run of both managers each section is there exactly when its manager's last step was an Apply, once and with those parameters, and the user text is kept |
| NdppdRuns.AllStopped | awg/ndp.go:74-94 | when both have stopped, the file is the settled user text, or gone |
| NdppdText.BodySays | awg/ndp.go:18-31 | the proxy is for the external interface and the rule's interface is the tunnel's |
| NdppdText.NewFileSays | awg/ndp.go:55-62 | what is written where there was no file |
| NdppdText.NdppdConf.ApplyNdppdConfig | awg/ndp.go:37-62 | the three branches on the file |
| NdppdText.NdppdConf.StopNdppd | awg/ndp.go:74-94 | the removal, trimming and deletion |
| IpLimit.MergedIsLatest | web/job/check_client_ip_job.go:310-321 | merging holds exactly the old and new addresses, each with the later of its times |
| IpLimit.SplitMeans | web/job/check_client_ip_job.go:322-365 | for every map order and sort: stored and banned addresses partition the merged ones, the stored list is sorted, duplicate-free and within the limit, no stored time is after a banned one, and there is a ban exactly above the limit |
| IpLimit.AlwaysKeptIff | web/job/check_client_ip_job.go:322-360 | an address is kept under every order if and only if fewer than `limit` others are as old |
| IpLimit.AlwaysBannedIff | web/job/check_client_ip_job.go:322-360 | it is banned under every order if and only if `limit` others are older |
| IpLimit.LatecomersAreBanned | web/job/check_client_ip_job.go:321-329 | a full record keeps its addresses when every newcomer is later than all their last times |
| IpLimit.StoredAreKeptIff | web/job/check_client_ip_job.go:321-360 | a full record keeps all its addresses under every order if and only if every newcomer is later than each of them |
| IpLimit.ActiveOriginalIsBanned | web/job/check_client_ip_job.go:321-329 | with limit 1, the stored address that is still active loses to one seen before its last packet |
| IpLimit.ShownIsLatest | web/job/check_client_ip_job.go:172-178 | the map built from the log holds exactly its non-loopback addresses with their last times |
| IpLimit.UpdateLeaves | web/job/check_client_ip_job.go:267-379 | what an update leaves: the record as it was, what was seen, or at most `limit` of both with their later times, with the log to be cleaned exactly when there were more |
| IpLimit.RecordLeaves | web/job/check_client_ip_job.go:181-200 | a client without a record gets what was seen |
| IpLimit.CheckClientIpJob.ScanLog | web/job/check_client_ip_job.go:135-179 | the scan builds that map |
| IpLimit.CheckClientIpJob.UpdateInboundClientIps | web/job/check_client_ip_job.go:267-379 | one client's update, with its three early returns |
| IpLimit.CheckClientIpJob.ProcessLogFile | web/job/check_client_ip_job.go:124-200 | over all clients in any order, cleaning is asked for exactly when some update asks |
| CpuHistory.HistoryIsWindow | web/service/server.go:476-489 | the bounded history is at all times the last 9000 of the unbounded one with equal seconds merged |
| CpuHistory.HistoryIncreases | web/service/server.go:476-489 | under a monotone clock it is strictly increasing in time and at most 9000 long |
| CpuHistory.ServerService.AppendCpuSample | web/service/server.go:476-489 | appending in place is one step of that history |
| CpuHistory.ServerService.AggregateCpuHistory | web/service/server.go:130-187 | on any history, the result is the last maxPoints points of the samples after the last one before the cutoff |
| CpuHistory.AggregatedAreAverages | web/service/server.go:130-187 | on a history that increases in time these are the bucket means of exactly the samples at or after the cutoff |
| CpuHistory.AggregationIs | web/service/server.go:130-187 | the result: bucket means in order of time over exactly the samples of the last bucketSeconds * maxPoints seconds, short of the oldest bucket when they fall into one too many |
| CpuHistory.Buckets | web/service/server.go:158-182 | on samples in any order the loop yields the mean of each maximal run of samples in one bucket |
| CpuHistory.RunsPartition | web/service/server.go:158-182 | those runs hold every sample once, in order, each in its own bucket, and neighbours differ |
| CpuHistory.RunsAverage | web/service/server.go:158-182 | on samples increasing in time there is one point per bucket in use, in strictly increasing time, with the mean of exactly its samples |
| CpuHistory.InBucketHolds | web/service/server.go:158-182 | what a bucket's mean is taken over: exactly the samples whose time falls in the bucket |
| CpuHistory.AveragesUnique | web/service/server.go:158-182 | that description determines the points |
| CpuHistory.AtMostOneDropped | web/service/server.go:183-185 | the final cut drops at most one point |
| ReplayConn.AutoHttpsConn.Read | web/network/auto_https_conn.go:62-78 | unless it redirects, a read hands out the next bytes of the stream and keeps the rest |
| ReplayConn.AutoHttpsConn.ReadRequest | web/network/auto_https_conn.go:34-57 | reads ahead once, keeping every byte unless it redirects and closes |
| ReplayConn.AutoHttpsConn.ReadAll | web/network/auto_https_conn.go:34-78 | over any sequence of read sizes the output is a prefix of the stream, nothing lost, repeated or reordered; after a redirect there is no output |

## Left out

- The database: calls succeed and tables are maps or lists of records; transactions and rollbacks are not modelled, nor are column defaults other than the enable flag of a peer.
- An absent `enable` key in settings: a client's flag is always there. Creation and update times, sub ids and online lists.
- Letters outside ASCII in email comparison.
- Shadowsocks ciphers. Keys other than the cipher of Shadowsocks are taken to be there in the settings clients that renewal hands to the core. Whether a panic ends the process (in a cron job) or a request (behind gin's recovery) is not modelled; a panel that starts again begins with a forced restart.
- A core that is not running, an API connection that cannot be opened, and a failing start.
- 64-bit wrap-around of byte counters, and of the aggregation window for huge bucket sizes.
- PanelService.InboundService.AdjustTraffics: proved on consistent tables only, as are AddClientTraffic, AutoRenewClients, AddTraffic, GetXrayConfig, RestartXray and CheckRestartJob; PanelRuns.RunKeepsConsistent shows which steps keep them so. On others the loops follow the row's inbound while the specification follows the email. The clock that the source reads anew for each client is one value per step; that both copies get the same expiry does not depend on it.
- PanelService.InboundService.AddClientTraffic: as above.
- PanelService.InboundService.AutoRenewClients: as above.
- PanelService.InboundService.AddTraffic: as above.
- PanelService.InboundService.GetXrayConfig: as above.
- PanelService.InboundService.RestartXray: as above.
- PanelService.InboundService.CheckRestartJob: as above.
- XrayConfig.StalePassesAreRemoval: for several disabled rows the condition is sufficient; it is exact for each pass (StalePassIsRemovalIff) and for the loop up to its first wrong pass (LastPassDecides), after which later passes can cancel it out (PassesCanCancelOut).
- PanelTick.AddInboundAgreesIff: imported inbounds that bring their own client statistics are not modelled.
- UpdateInbound's effect on clients and the core, DelDepletedClients, and the by-email variants of reset and traffic update, which sidestep the rules above or repeat them.
- Creation of the two tunnel inbounds beyond their port and tag.
- The inner searches for a client by email, which are loops in the original and map lookups here.
- Where the settings of an inbound name a tag that the core also holds for something else.
- BroadcastToTopic, nil messages, the size limit on messages and the restart of Run after a panic; the write pump is reduced to reading its channel.
- The history fields of the hub's state exist only in the model.
- `$` in the parameters of a section, which the regular expression's replacement would expand, and markers inside them.
- NdppdRuns.RunKeepsFile: the user text is preserved up to surrounding space; newline runs around sections are not counted.
- What net.ParseCIDR and net.ParseIP accept: parsed values are parameters. IPv6 text (section 4 of RFC 5952) is not modelled, addresses are compared as values.
- Peers: key generation, endpoints, handshake times, NDP proxy entries and the text of the configuration file.
- PeerRuns.StepKeepsInv: an update that changes a peer's key or addresses, and saving a server with a peer's address, are excluded by its guard, as the code does not check them.
- The lookup of a client's inbound by a substring of its settings (`getInboundByEmail`), whose outcome is a parameter; the text of log lines; fail2ban itself.
- The binary form of CPU values: averages are over real numbers.
- Why http.ReadRequest accepts a buffer: it is a parameter. The error of the first read, which Read swallows, is modelled but nothing is proved about it.
