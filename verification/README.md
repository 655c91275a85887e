# Zigbee2MqttAssistant core, modelled in Dafny

Zigbee2MqttAssistant watches a zigbee2mqtt bridge over MQTT and keeps a live snapshot of the
Zigbee network: the bridge's flags and every device with its entities and parent links. Each
received message is classified by its topic and handed to a reducer of the snapshot. Commands to
the bridge (rename, remove, bind, unbind, permit join, log level) are published, and the caller
waits until the bridge reports the effect back. An auto-off timer switches permit-join off again
after the configured number of minutes. The web pages rewrite their own URLs relative to the
request path.

This project models that core as immutable datatypes and pure functions:

- `Devices` (devices.dfy): the snapshot `Bridge`, its `Device` records, and the first-match lookups
  the reducers use.
- `BridgeState` (bridge_state.dfy): the reducers of `BridgeStateService`. Each is a `Bridge -> Bridge`
  step applied atomically.
- `Inventory` (inventory.dfy): `UpdateDevices`, the merge of the bridge's device list.
- `NetworkMap` (network_map.dfy): `UpdateNetworkMap`, availability and parent links from the raw
  network map.
- `Topics` (topics.dfy): the three topic patterns, the ignore list, and `Classify`, the route
  `HandleApplicationMessageReceivedAsync` picks for a message.
- `Correlator` (correlator.dfy): the six waiting lists of pending commands, as maps from a key to
  an opaque completion token.
- `Connection` (connection.dfy): one received message as a step of the whole service state
  (snapshot plus waiting lists).
- `AllowJoinTimer` (allow_join_timer.dfy): the auto-off timer as a state machine over events.
- `RelativeUrl` (relative_url.dfy): `MakeUrlRelative` and `IsLocalUrl`, and `Resolve`, a browser's
  resolution of a reference against the page (section 5.2 of RFC 3986), to say where a rewritten
  URL leads.
- `Text` and `Wrappers`: the string functions of .NET the code relies on, `Option`, and a
  three-state JSON field (missing, JSON null, present).

Behaviour the model keeps as the code has it:

- `UpdateDevices` stores the entry's `modelId` as the record's `Model` and its `model` as the
  record's `ModelId`.
- Merging the same device list twice can differ from merging it once (`Inventory.MergeTwiceDiffers`).
  Idempotence holds for a single entry, and for a list of distinct entries that match no existing
  record.
- Only a blank-named entry can set the coordinator id.
- The topic pattern cuts a friendly name that ends in '/' followed by a suffix word.
- The echo of the remove command is not on the ignore list. It reaches the telemetry reducer under
  the name "bridge/config/remove"; nothing is stored only because its payload, a bare friendly name,
  is not a JSON object.
- A `/set` command under a multi-segment name is not caught either.
- A `device_connected` log entry stores the friendly name as the Zigbee id.
- Permit-join and log-level requests publish again while a request for the same value is
  pending, and share its token.

## Model

| member | source | states |
|---|---|---|
| Devices.Find | Zigbee2MqttAssistant/Services/BridgeStateService.cs:34 | the index `FirstOrDefault` returns: the record there matches, no earlier one does, and `None` means no record matches |
| Devices.FindAt | Zigbee2MqttAssistant/Services/BridgeStateService.cs:67 | the converse: a matching record with no earlier match is the one the lookup finds |
| Devices.ReplaceKeyed | Zigbee2MqttAssistant/Services/BridgeStateService.cs:96 | `devices.Replace(device, newDevice)` on a looked-up record changes exactly that index, and an edit keeping name and id stays findable there |
| Devices.RemoveFirstAt | Zigbee2MqttAssistant/Services/BridgeStateService.cs:467 | `devices.Remove(device)` on a looked-up record removes exactly that index |
| BridgeState.NewDevice | Zigbee2MqttAssistant/Services/BridgeStateService.cs:29-55 | a known name leaves the snapshot unchanged; an unknown one appends a fresh available record with the given ids, and nothing else changes |
| BridgeState.NewDeviceIdempotent | Zigbee2MqttAssistant/Services/BridgeStateService.cs:34-49 | a second join of the same name changes nothing, whatever ids it carries |
| BridgeState.UpdateDevice | Zigbee2MqttAssistant/Services/BridgeStateService.cs:57-107 | afterwards the name is known; only its record changes (appended if new); `last_seen` and `battery` overwrite only when present |
| BridgeState.UpdateDeviceIdempotent | Zigbee2MqttAssistant/Services/BridgeStateService.cs:65-101 | applying the same telemetry twice is applying it once |
| BridgeState.SetDeviceAvailability | Zigbee2MqttAssistant/Services/BridgeStateService.cs:109-134 | an unknown name gets a placeholder carrying the value; an equal value changes nothing; otherwise only that record's availability changes |
| BridgeState.AvailabilityIdempotent | Zigbee2MqttAssistant/Services/BridgeStateService.cs:111-131 | reporting the same availability twice is reporting it once |
| BridgeState.SetBridgeState | Zigbee2MqttAssistant/Services/BridgeStateService.cs:136-150 | going offline resets to the default snapshot with no devices; going online changes only the flag |
| BridgeState.SetBridgeConfig | Zigbee2MqttAssistant/Services/BridgeStateService.cs:152-194 | a missing `coordinator` throws before anything is stored; otherwise `permit_join` defaults to false and `log_level` to Info, the out values equal what is stored, the coordinator's version and type follow its JSON type, and devices and online flag are untouched |
| BridgeState.SourceTopic | Zigbee2MqttAssistant/Services/BridgeStateService.cs:219-221 | the first of state, attributes and availability topic that is not JSON null; a missing key on the way leaves no topic |
| BridgeState.EntityTarget | Zigbee2MqttAssistant/Services/BridgeStateService.cs:214-243 | the record with the Zigbee id if any; else the one named by the source topic, created with that id when unknown; none when there is no topic or name |
| BridgeState.EnrichDevice | Zigbee2MqttAssistant/Services/BridgeStateService.cs:245-286 | the three edits keep name and Zigbee id; an entity with the same component is kept; name and identifier are overwritten together when either is present |
| BridgeState.SetDeviceEntity | Zigbee2MqttAssistant/Services/BridgeStateService.cs:196-294 | with no target the snapshot is unchanged; otherwise exactly the target record is edited as the three edits say |
| BridgeState.EnrichIdempotent | Zigbee2MqttAssistant/Services/BridgeStateService.cs:245-286 | the three edits applied twice are applied once |
| BridgeState.TargetAfterMerge | Zigbee2MqttAssistant/Services/BridgeStateService.cs:214-243 | after a merge the same discovery message finds the record it edited, at the same index |
| BridgeState.DiscoveryIdempotent | Zigbee2MqttAssistant/Services/BridgeStateService.cs:212-289 | a repeated discovery message changes nothing |
| BridgeState.UpdateRenamedDevice | Zigbee2MqttAssistant/Services/BridgeStateService.cs:435-455 | an unknown name is a no-op; otherwise only the first match's friendly name changes |
| BridgeState.RenameAndBack | Zigbee2MqttAssistant/Services/BridgeStateService.cs:437-452 | renaming to an unused name and back restores the snapshot |
| BridgeState.RemoveDevice | Zigbee2MqttAssistant/Services/BridgeStateService.cs:457-473 | an unknown name is a no-op; otherwise exactly the first match is deleted |
| BridgeState.JoinThenRemove | Zigbee2MqttAssistant/Services/BridgeStateService.cs:29-55 | a new device that joins and is removed again leaves the snapshot as it was |
| Inventory.Apply | Zigbee2MqttAssistant/Services/BridgeStateService.cs:325-332 | the `With…` chain keeps name, entities and parents and takes the Zigbee id from the entry |
| Inventory.ModelFieldsSwapped | Zigbee2MqttAssistant/Services/BridgeStateService.cs:328-329 | an entry's `modelId` is stored as `Model` and its `model` as `ModelId` |
| Inventory.Step | Zigbee2MqttAssistant/Services/BridgeStateService.cs:311-339 | a blank-named coordinator entry sets the coordinator id; the first record matching by name or id is updated in place, else a record is appended |
| Inventory.Run | Zigbee2MqttAssistant/Services/BridgeStateService.cs:309-340 | the loop fails exactly when some entry throws; otherwise records keep their places and names and the flags are untouched |
| Inventory.UpdateDevices | Zigbee2MqttAssistant/Services/BridgeStateService.cs:303-346 | a throwing entry anywhere leaves the snapshot unchanged; no record is removed or renamed |
| Inventory.StepIdempotent | Zigbee2MqttAssistant/Services/BridgeStateService.cs:324-339 | merging an entry a second time changes nothing |
| Inventory.SingleEntryIdempotent | Zigbee2MqttAssistant/Services/BridgeStateService.cs:303-346 | a one-entry list merged twice gives the snapshot of merging it once |
| Inventory.DistinctFreshListIdempotent | Zigbee2MqttAssistant/Services/BridgeStateService.cs:303-346 | a list of distinct entries matching no record merged twice gives the snapshot of merging it once |
| Inventory.MergeTwiceDiffers | Zigbee2MqttAssistant/Services/BridgeStateService.cs:324-339 | a two-entry list whose second merge appends a record the first did not |
| Inventory.LastCoordinatorOverrides | Zigbee2MqttAssistant/Services/BridgeStateService.cs:314-319 | of the helper `LastCoordinator` (the id left by the last coordinator entry): with a coordinator entry in the list, the prior id does not matter |
| Inventory.RunCoordinator | Zigbee2MqttAssistant/Services/BridgeStateService.cs:309-340 | the merge loop leaves exactly the coordinator id `LastCoordinator` computes from the list and the prior id |
| Inventory.UpdateDevicesCoordinator | Zigbee2MqttAssistant/Services/BridgeStateService.cs:303-346 | on a well-formed list, `UpdateDevices` keeps the coordinator id when no entry is a coordinator, and otherwise sets one that does not depend on the prior id |
| Inventory.NamedCoordinatorIsOrdinary | Zigbee2MqttAssistant/Services/BridgeStateService.cs:314-322 | an entry literally named "Coordinator" does not set the coordinator id |
| Inventory.BlankCoordinatorSetsId | Zigbee2MqttAssistant/Services/BridgeStateService.cs:314-322 | on any snapshot, a blank-named entry sets the coordinator id exactly when its type equals "Coordinator" ignoring case, and otherwise leaves it; unmatched, it is stored as "Coordinator" |
| Inventory.CoordinatorTypeAnyCase | Zigbee2MqttAssistant/Services/BridgeStateService.cs:316 | "coordinator" and "COORDINATOR" match the type, "Router" does not |
| NetworkMap.Relink | Zigbee2MqttAssistant/Services/BridgeStateService.cs:409-420 | the entry for the parent is replaced or appended; the quality is recorded; other parents stay; one entry per parent is kept |
| NetworkMap.NodeStep | Zigbee2MqttAssistant/Services/BridgeStateService.cs:358-381 | an unlocatable node changes nothing; a located one sets only availability; it throws exactly on a JSON-null status |
| NetworkMap.LinkStep | Zigbee2MqttAssistant/Services/BridgeStateService.cs:386-426 | links with a blank or unknown source, blank target or missing lqi are skipped; otherwise only that record's parents change |
| NetworkMap.RunLinks | Zigbee2MqttAssistant/Services/BridgeStateService.cs:384-427 | the links loop fails exactly when some link throws, touches no availability and keeps one entry per parent |
| NetworkMap.ProcessOutcome | Zigbee2MqttAssistant/Services/BridgeStateService.cs:354-430 | nodes then links throw exactly when some element throws against the starting snapshot |
| NetworkMap.UpdateNetworkMap | Zigbee2MqttAssistant/Services/BridgeStateService.cs:348-433 | no record is added, removed, renamed or re-identified; only availability and parents change; a throw leaves the snapshot |
| NetworkMap.NodeStepIdempotent | Zigbee2MqttAssistant/Services/BridgeStateService.cs:374-380 | applying a node twice is applying it once |
| NetworkMap.LinkStepIdempotent | Zigbee2MqttAssistant/Services/BridgeStateService.cs:407-425 | applying a link twice is applying it once |
| Topics.SetTopicIsEcho | Zigbee2MqttAssistant/Services/MqttConnectionService.cs:56 | `<base>/<name>/set` with a '/'-free name is a set echo |
| Topics.MultiSegmentSetIsNoEcho | Zigbee2MqttAssistant/Services/MqttConnectionService.cs:56 | a two-segment name's `/set` topic is not |
| Topics.MatchDiscovery | Zigbee2MqttAssistant/Services/MqttConnectionService.cs:55 | a match lies under the discovery prefix and yields three non-empty '/'-free segments |
| Topics.DiscoveryRoundTrip | Zigbee2MqttAssistant/Services/MqttConnectionService.cs:55 | building a discovery topic and matching it gives the segments back |
| Topics.DiscoveryMatchSound | Zigbee2MqttAssistant/Services/MqttConnectionService.cs:55 | every discovery match is the topic its segments build |
| Topics.MatchFriendlyName | Zigbee2MqttAssistant/Services/MqttConnectionService.cs:54 | matches exactly the topics with a non-empty remainder after the base, and yields the shortest name that completes the pattern |
| Topics.NameRoundTrip | Zigbee2MqttAssistant/Services/MqttConnectionService.cs:54 | a plain name's topic yields that name with no suffix |
| Topics.SuffixRoundTrip | Zigbee2MqttAssistant/Services/MqttConnectionService.cs:54 | a plain name plus a suffix yields that name and suffix |
| Topics.SlashedNameIsCut | Zigbee2MqttAssistant/Services/MqttConnectionService.cs:54 | the name "lamp/state" is read as "lamp" with suffix "state" |
| Topics.WholeNameRoundTrip | Zigbee2MqttAssistant/Services/MqttConnectionService.cs:54 | a name ending unlike every suffix word is read whole, slashes included |
| Topics.Classify | Zigbee2MqttAssistant/Services/MqttConnectionService.cs:182-219 | ignored exactly for the ignore list or a set echo; no payload never acts; entity merges come from discovery matches; availability routes exactly for a suffixed non-bridge name with payload |
| Topics.DispatchFriendlyName | Zigbee2MqttAssistant/Services/MqttConnectionService.cs:225-287 | the "bridge" name needs a suffix and payload; others are availability with a suffix, telemetry without, consumed without payload; online iff "online" |
| Topics.DeviceTopicRoute | Zigbee2MqttAssistant/Services/MqttConnectionService.cs:272-287 | a plain device's topic is telemetry for it, or consumed without payload |
| Topics.DeviceSuffixRoute | Zigbee2MqttAssistant/Services/MqttConnectionService.cs:277-281 | a plain device's suffixed topic is an availability report, online iff the payload is "online" |
| Topics.BridgeSuffixRoute | Zigbee2MqttAssistant/Services/MqttConnectionService.cs:236-270 | bridge "state" sets online iff "online", "config" carries the configuration, other suffixes are consumed, no payload is unhandled |
| Topics.BareBridgeUnqualified | Zigbee2MqttAssistant/Services/MqttConnectionService.cs:238-269 | the bare bridge topic is never handled |
| Topics.DiscoveryRoute | Zigbee2MqttAssistant/Services/MqttConnectionService.cs:292-324 | a config topic with payload merges the entity; otherwise the message is consumed without effect |
| Topics.SetEchoRoute | Zigbee2MqttAssistant/Services/MqttConnectionService.cs:193-196 | a device's command topic is dropped before any dispatcher |
| Topics.MultiSegmentSetRoute | Zigbee2MqttAssistant/Services/MqttConnectionService.cs:193-196 | a two-segment command topic is not dropped |
| Topics.MultiSegmentSetIsTelemetry | Zigbee2MqttAssistant/Services/MqttConnectionService.cs:182-287 | a two-segment command topic becomes telemetry for the whole remainder |
| Topics.ExactTopicRoutes | Zigbee2MqttAssistant/Services/MqttConnectionService.cs:327-359 | the device-list and network-map topics hand their payload over and fault without one; the log topic goes to the log handler |
| Topics.RemoveEchoIsTelemetry | Zigbee2MqttAssistant/Services/MqttConnectionService.cs:171-178 | the remove command's echo is telemetry for the device "bridge/config/remove" |
| Correlator.RenameAndWait | Zigbee2MqttAssistant/Services/MqttConnectionService.cs:469-487 | refused exactly when the name is pending; otherwise the name waits on a fresh token and the rename is published |
| Correlator.RemoveAndWait | Zigbee2MqttAssistant/Services/MqttConnectionService.cs:491-507 | refused exactly when the name is pending; otherwise it waits on a fresh token |
| Correlator.AllowJoinAndWait | Zigbee2MqttAssistant/Services/MqttConnectionService.cs:511-527 | always publishes; a pending value's token is reused, otherwise a fresh one is registered |
| Correlator.SetLogLevelAndWait | Zigbee2MqttAssistant/Services/MqttConnectionService.cs:604-621 | always publishes; a pending level's token is reused, otherwise a fresh one is registered |
| Correlator.BindAndWait | Zigbee2MqttAssistant/Services/MqttConnectionService.cs:538-567 | fails for an unknown source, and for an unknown target only when the source has an id (the short-circuit `or` never reads the target's id after an empty source id); waits only when both Zigbee ids are non-empty, then refused exactly when the pair is pending |
| Correlator.UnbindAndWait | Zigbee2MqttAssistant/Services/MqttConnectionService.cs:571-600 | the same rules on the unbind list, including an unknown target going unread behind a source without an id |
| Correlator.ConfirmRename | Zigbee2MqttAssistant/Services/MqttConnectionService.cs:367-370 | removes and completes exactly the entry for the old name; an absent key changes nothing |
| Correlator.ConfirmConfig | Zigbee2MqttAssistant/Services/MqttConnectionService.cs:257-265 | resolves the entries for the reported permit-join value and log level, and nothing else |
| Correlator.RenameSingleFlight | Zigbee2MqttAssistant/Services/MqttConnectionService.cs:474-477 | a second rename of a pending name is refused |
| Correlator.RenameRoundTrip | Zigbee2MqttAssistant/Services/MqttConnectionService.cs:469-487 | a confirmed rename completes the awaited token and restores the lists |
| Correlator.RemoveRoundTrip | Zigbee2MqttAssistant/Services/MqttConnectionService.cs:491-507 | a confirmed remove completes the awaited token and restores the lists |
| Correlator.OtherConfirmationKeepsWaiting | Zigbee2MqttAssistant/Services/MqttConnectionService.cs:367-370 | a confirmation for another name releases nobody |
| Correlator.PermitJoinShared | Zigbee2MqttAssistant/Services/MqttConnectionService.cs:514-517 | two requests for one value share a token, both publish, one report releases both |
| Correlator.PermitJoinOtherValueKeepsWaiting | Zigbee2MqttAssistant/Services/MqttConnectionService.cs:257-260 | a report of the other value releases nobody |
| Correlator.BindRoundTrip | Zigbee2MqttAssistant/Services/MqttConnectionService.cs:545-553 | a bind waits on its id pair, a second bind is refused, a log entry naming the pair releases it |
| Correlator.BindWithoutIdNeverWaits | Zigbee2MqttAssistant/Services/MqttConnectionService.cs:543-563 | a bind whose source has no id, whatever the target lookup returned, or whose known target has no id publishes without waiting, and repeating it changes nothing |
| Correlator.LogLevelShared | Zigbee2MqttAssistant/Services/MqttConnectionService.cs:604-621 | two requests for one level share a token, both publish, one report of that level releases both |
| Correlator.LogLevelOtherValueKeepsWaiting | Zigbee2MqttAssistant/Services/MqttConnectionService.cs:262-265 | a report of another level releases nobody |
| Correlator.UnbindRoundTrip | Zigbee2MqttAssistant/Services/MqttConnectionService.cs:571-600 | an unbind waits on its id pair, a second unbind is refused, a `device_unbind` entry naming the pair releases it |
| Correlator.UnbindWithoutIdNeverWaits | Zigbee2MqttAssistant/Services/MqttConnectionService.cs:578-596 | an unbind whose source has no id, whatever the target lookup returned, or whose known target has no id publishes without waiting, and repeating it changes nothing |
| Connection.ApplyLog | Zigbee2MqttAssistant/Services/MqttConnectionService.cs:348-428 | each log entry type calls its reducer and resolves its own waiting list, and the lists only shrink |
| Connection.ApplyConfig | Zigbee2MqttAssistant/Services/MqttConnectionService.cs:251-265 | the configuration is stored, then the reported values are resolved; without `coordinator` nothing changes |
| Connection.Dispatch | Zigbee2MqttAssistant/Services/MqttConnectionService.cs:182-428 | routes that do not act change nothing; only log and configuration touch the lists, and only to resolve |
| Connection.Receive | Zigbee2MqttAssistant/Services/MqttConnectionService.cs:182-219 | ignored topics, set echoes and missing payloads change nothing; no message issues a token |
| Connection.ConfigEchoesIgnored | Zigbee2MqttAssistant/Services/MqttConnectionService.cs:171-191 | the rename, permit-join and log-level echoes change nothing |
| Connection.RemoveEchoReachesTelemetry | Zigbee2MqttAssistant/Services/MqttConnectionService.cs:182-287 | the remove echo reaches the telemetry reducer under the name "bridge/config/remove" |
| Connection.RenameConfirmed | Zigbee2MqttAssistant/Services/MqttConnectionService.cs:361-373 | a rename's log entry renames the device and releases the caller |
| Connection.OfflineClears | Zigbee2MqttAssistant/Services/MqttConnectionService.cs:243-246 | "offline" on the bridge state topic resets the snapshot and keeps the waiting lists |
| Connection.PermitJoinConfirmed | Zigbee2MqttAssistant/Services/MqttConnectionService.cs:251-260 | a configuration with the requested value releases the caller and stores the value |
| Connection.AvailabilityReported | Zigbee2MqttAssistant/Services/MqttConnectionService.cs:277-281 | a device's availability message goes to the availability reducer |
| AllowJoinTimer.Start | Zigbee2MqttAssistant/Services/AllowJoinTimerService.cs:29-35 | subscribes exactly when the timeout is positive |
| AllowJoinTimer.OnStateChanged | Zigbee2MqttAssistant/Services/AllowJoinTimerService.cs:37-58 | permit-join while idle starts one timer; while running starts none; off while running cancels and idles; off while idle does nothing |
| AllowJoinTimer.Expire | Zigbee2MqttAssistant/Services/AllowJoinTimerService.cs:60-69 | the running timer's expiry idles the service and then switches permit-join off; a cancelled timer does nothing |
| AllowJoinTimer.Stop | Zigbee2MqttAssistant/Services/AllowJoinTimerService.cs:71-78 | unsubscribes and cancels any running timer |
| AllowJoinTimer.StepAgrees | Zigbee2MqttAssistant/Services/AllowJoinTimerService.cs:37-78 | each event keeps the held timer equal to the one its effects leave running, and starts one only from idle |
| AllowJoinTimer.RunAgrees | Zigbee2MqttAssistant/Services/AllowJoinTimerService.cs:16-78 | over any event sequence at most one timer runs, and it is the one the service holds |
| AllowJoinTimer.QuietRun | Zigbee2MqttAssistant/Services/AllowJoinTimerService.cs:29-78 | an unsubscribed idle service stays unsubscribed and idle and does nothing over any events that never enable it |
| AllowJoinTimer.DisabledNeverStarts | Zigbee2MqttAssistant/Services/AllowJoinTimerService.cs:31-34 | started with no positive timeout, the service emits no effect over any later events, unless a later start enables it |
| AllowJoinTimer.TimeoutSwitchesOff | Zigbee2MqttAssistant/Services/AllowJoinTimerService.cs:39-68 | permit-join on, then expiry, switches it off once |
| AllowJoinTimer.ChangeAfterExpiryRestarts | Zigbee2MqttAssistant/Services/AllowJoinTimerService.cs:39-51 | a change still showing permit-join after expiry starts a new timer |
| RelativeUrl.MakeUrlRelative | Zigbee2MqttAssistant/RelativeUrlHelperFactory.cs:35-69 | the loop computes the rewriting: null stays null, foreign and "//x" URLs are kept, depth 0 drops the '/', depth k prepends k "../" |
| RelativeUrl.Relative | Zigbee2MqttAssistant/RelativeUrlHelperFactory.cs:35-50 | null stays null; an empty URL, one not starting with '/', and one longer than 2 whose second character is '/' are returned unchanged |
| RelativeUrl.Depth | Zigbee2MqttAssistant/RelativeUrlHelperFactory.cs:54 | the depth is the number of '/' in the request path minus one |
| RelativeUrl.IsLocalUrl | Zigbee2MqttAssistant/RelativeUrlHelperFactory.cs:81-89 | anything starting with "../" is local; otherwise the wrapped helper decides |
| RelativeUrl.RelativeRoundTrip | Zigbee2MqttAssistant/RelativeUrlHelperFactory.cs:35-69 | from a page below the root, and at the root for a URL with a non-empty path naming no scheme, the rewritten URL resolves (section 5.2 of RFC 3986) to the same target as the original |
| RelativeUrl.RewrittenUrlIsLocal | Zigbee2MqttAssistant/RelativeUrlHelperFactory.cs:60-89 | a URL rewritten below the root is local without asking the wrapped helper |
| RelativeUrl.DoubleSlashBecomesRoot | Zigbee2MqttAssistant/RelativeUrlHelperFactory.cs:47-59 | the URL "//" passes the guard and becomes "/" at the site root |
| RelativeUrl.DoubleSlashRoundTripFails | Zigbee2MqttAssistant/RelativeUrlHelperFactory.cs:47-59 | "//" is a reference with an authority, while its rewriting resolves to the site root |
| RelativeUrl.RootLinkStaysOnPage | Zigbee2MqttAssistant/RelativeUrlHelperFactory.cs:56-58 | at the root the link "/" becomes "", which resolves to the page itself ("/Groups") instead of "/" |
| RelativeUrl.ColonSegmentLeavesSite | Zigbee2MqttAssistant/RelativeUrlHelperFactory.cs:56-58 | at the root "/a:b" becomes "a:b", which names a scheme and leaves the site |
| RelativeUrl.IntendedOutputIsRelative | Zigbee2MqttAssistant/RelativeUrlHelperFactory.cs:47-59 | with the guard for every "//" URL and "./" at the root, each changed URL comes out relative |
| RelativeUrl.IntendedRoundTrip | Zigbee2MqttAssistant/RelativeUrlHelperFactory.cs:35-69 | with those corrections every URL starting with '/' resolves from its page to the same target as before, at every depth |
| RelativeUrl.IntendedDiffers | Zigbee2MqttAssistant/RelativeUrlHelperFactory.cs:47-58 | the written and the intended rewriting differ on "//", and at the root by the leading "./", only |
| Text.JoinSplit | Zigbee2MqttAssistant/RelativeUrlHelperFactory.cs:54 | `Split('/')` loses nothing: joining the pieces restores the path |
| Text.CleanPlain | Zigbee2MqttAssistant/Services/BridgeStateService.cs:328-331 | a value with no whitespace or NUL at either end is stored as it came |
| Text.CleanKeepsWhitespaceBehindNul | Zigbee2MqttAssistant/Services/BridgeStateService.cs:328 | `Trim().Trim((char)0)` leaves whitespace that sat behind a NUL |

## Left out

- MQTT connection, subscription, publishing, reconnection and the polling loop: network I/O and
  timing. A publish is the `command` of a `Correlator.Outcome`.
- `ImmutableInterlocked` compare-and-swap and `TaskCompletionSource` awaiting: each update is one
  atomic step, and each token is a number.
- JSON parsing and conversions: reducers take parsed fields. A parse failure is a decoder answering
  `None`. A throw inside an update closure leaves the snapshot unchanged.
- `UpdateDevice` reads `linkquality` but never stores it, so the model leaves it out.
- `Bridge.FindDevice` and `FindDeviceById` are not part of this model: the bind lookups are
  parameters of `Correlator.BindAndWait`.
- `GetRoutesToCoordinator` returns nothing and is left out.
- Null friendly names are left out: a rename to null and a `device_connected` without a name.
  Names are strings here.
- `String.EndsWith` on the ignore list is culture-sensitive in .NET. The model compares ordinally.
- Inventory.Step: the coordinator type is compared with `InvariantCultureIgnoreCase`, which also folds
  non-ASCII letters and ignores ignorable code points such as a soft hyphen. `EqualsIgnoreCase` folds
  ASCII letters only, so such spellings of "Coordinator" are not recognised by the model.
- Inventory.BlankCoordinatorSetsId: "ignoring case" means ASCII case only, for the same reason.
- AllowJoinTimer.Expire: events are taken one at a time. In .NET, a delay that completes just before
  its cancellation can still run the expiry after a new timer was stored, and cancel that timer.
  This race is not modelled.
- RelativeUrl.Resolve: the page is its request path. The page's own query, which an empty-path
  reference keeps, is not modelled, and the server is assumed to remove dot segments from request
  paths (`NormalPath`).
- Correlator.BindAndWait: the confirmation resolves the `(from, to)` pair the log names. Whether
  zigbee2mqtt logs ids there, as registration assumes, is outside this code.
- AllowJoinTimer.Start: a second start subscribes the handler twice in .NET. The model keeps one
  subscription flag.
- Inventory.DistinctFreshListIdempotent: list idempotence is proved only for distinct entries
  matching no record, because it fails in general (`Inventory.MergeTwiceDiffers`).
- `Dispose`, `Reset`, `Clear` as a public call, and the web, DI and configuration plumbing.

## Findings

| source | as written | input that shows it | evidently intended | confidence | as-written member | corrected member |
|---|---|---|---|---|---|---|
| Zigbee2MqttAssistant/RelativeUrlHelperFactory.cs:47 | the "//" guard needs more than 2 characters | URL "//" on a page at the site root becomes "/" | every URL starting with "//" is left as is | not executed | RelativeUrl.DoubleSlashRoundTripFails | RelativeUrl.IntendedRoundTrip |
| Zigbee2MqttAssistant/RelativeUrlHelperFactory.cs:56-58 | at depth 0 the leading '/' is dropped | link "/" on page "/Groups" becomes "", which leads back to "/Groups" | the rewritten URL leads where the original did, e.g. "./" + rest | not executed | RelativeUrl.RootLinkStaysOnPage | RelativeUrl.IntendedRoundTrip |
