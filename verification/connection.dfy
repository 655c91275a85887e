/** `HandleApplicationMessageReceivedAsync` as a step of the whole service state: the bridge
    snapshot and the waiting lists. The message is classified, then handed to the reducer or
    confirmation it names. JSON parsing is a parameter: a decoder answers `None` where parsing
    throws, and a throwing handler changes nothing. */
module Connection {
  import opened Wrappers
  import opened Text
  import opened Devices
  import opened BridgeState
  import opened Inventory
  import opened NetworkMap
  import opened Topics
  import opened Correlator

  /** The service state a received message can change. */
  datatype State = State(bridge: Bridge, waiting: Pending)

  /** A `<base>/bridge/log` entry, by its `type`. */
  datatype LogEvent =
    | DeviceRenamed(oldName: string, newName: string)
    | DeviceRemoved(removed: Option<string>)
    | DeviceConnected(joined: string, modelId: Option<string>)
    | DeviceBound(from: Option<string>, to: Option<string>)
    | DeviceUnbound(from: Option<string>, to: Option<string>)
    | OtherLogEvent

  /** The JSON decoders, one per payload kind. */
  datatype Decoders = Decoders(
    telemetry: string -> Option<Telemetry>,
    config: string -> Option<BridgeConfig>,
    discovery: string -> Option<DiscoveryPayload>,
    inventory: string -> Option<seq<InventoryEntry>>,
    networkMap: string -> Option<MapPayload>,
    log: string -> Option<LogEvent>)

  /** Received messages never issue tokens, and a completed token stays completed. */
  predicate Settles(before: Pending, after: Pending) {
    && after.next == before.next
    && before.completed <= after.completed
    && after.rename.Keys <= before.rename.Keys && after.remove.Keys <= before.remove.Keys
    && after.permitJoin.Keys <= before.permitJoin.Keys && after.logLevel.Keys <= before.logLevel.Keys
    && after.bind.Keys <= before.bind.Keys && after.unbind.Keys <= before.unbind.Keys
  }

  /** `DispatchLogMessage` once the entry is decoded: the reducer call, then the confirmation.
      A null name or pair resolves nothing. */
  function ApplyLog(st: State, e: LogEvent): (r: State)
    ensures Settles(st.waiting, r.waiting) && (Valid(st.waiting) ==> Valid(r.waiting))
    ensures e.DeviceRenamed? ==>
      r.bridge == UpdateRenamedDevice(st.bridge, e.oldName, e.newName) && r.waiting == ConfirmRename(st.waiting, e.oldName)
    ensures e.DeviceRemoved? && e.removed.Some? ==>
      r.bridge == RemoveDevice(st.bridge, e.removed.value) && r.waiting == ConfirmRemove(st.waiting, e.removed.value)
    ensures e.DeviceConnected? ==> r.bridge == NewDevice(st.bridge, e.joined, Some(e.joined), e.modelId) && r.waiting == st.waiting
    ensures e.DeviceBound? || e.DeviceUnbound? || e.OtherLogEvent? ==> r.bridge == st.bridge
    ensures e.OtherLogEvent? || (e.DeviceRemoved? && e.removed.None?) ==> r == st
  {
    match e
    case DeviceRenamed(from, to) => State(UpdateRenamedDevice(st.bridge, from, to), ConfirmRename(st.waiting, from))
    case DeviceRemoved(name) =>
      if name.Some? then State(RemoveDevice(st.bridge, name.value), ConfirmRemove(st.waiting, name.value)) else st
    case DeviceConnected(name, modelId) => st.(bridge := NewDevice(st.bridge, name, Some(name), modelId))
    case DeviceBound(from, to) =>
      if from.Some? && to.Some? then st.(waiting := ConfirmBind(st.waiting, from.value, to.value)) else st
    case DeviceUnbound(from, to) =>
      if from.Some? && to.Some? then st.(waiting := ConfirmUnbind(st.waiting, from.value, to.value)) else st
    case OtherLogEvent => st
  }

  /** The bridge configuration handler: store the configuration, then resolve the permit-join and
      log-level entries for the values it reports. A configuration without `coordinator` throws. */
  function ApplyConfig(st: State, c: BridgeConfig): (r: State)
    ensures Settles(st.waiting, r.waiting) && (Valid(st.waiting) ==> Valid(r.waiting))
    ensures SetBridgeConfig(st.bridge, c).None? ==> r == st
    ensures SetBridgeConfig(st.bridge, c).Some? ==>
      var applied := SetBridgeConfig(st.bridge, c).value;
      && r.bridge == applied.state
      && r.waiting == ConfirmConfig(st.waiting, applied.isJoinAllowed, applied.logLevel)
      && applied.isJoinAllowed == c.permitJoin.GetOr(false) && applied.logLevel == c.logLevel.GetOr(Info)
  {
    match SetBridgeConfig(st.bridge, c)
    case None => st
    case Some(applied) => State(applied.state, ConfirmConfig(st.waiting, applied.isJoinAllowed, applied.logLevel))
  }

  /** The handler a route names, applied to the state. Routes that do not act leave the state
      alone; only log entries and the bridge configuration touch the waiting lists, and they
      only ever resolve entries. */
  function Dispatch(s: Settings, st: State, route: Route, dec: Decoders): (r: State)
    ensures !Acts(route) ==> r == st
    ensures Settles(st.waiting, r.waiting) && (Valid(st.waiting) ==> Valid(r.waiting))
    ensures r.waiting != st.waiting ==> route.BridgeLog? || route.BridgeConfig?
    ensures route.BridgeOnline? ==> r == st.(bridge := SetBridgeState(st.bridge, route.online))
    ensures route.DeviceAvailability? ==>
      r == st.(bridge := SetDeviceAvailability(st.bridge, route.friendlyName, route.online))
  {
    match route
    case EntityConfig(entityClass, deviceId, component, text) =>
      (match dec.discovery(text)
      case None => st
      case Some(p) =>
        st.(bridge := SetDeviceEntity(st.bridge, deviceId, entityClass, component, p, t => FriendlyNameOf(s, t))))
    case DeviceList(text) =>
      (match dec.inventory(text)
      case None => st
      case Some(es) => st.(bridge := UpdateDevices(st.bridge, es)))
    case NetworkMapRaw(text) =>
      (match dec.networkMap(text)
      case None => st
      case Some(m) => st.(bridge := UpdateNetworkMap(st.bridge, m)))
    case BridgeLog(text) =>
      (match dec.log(text)
      case None => st
      case Some(e) => ApplyLog(st, e))
    case BridgeOnline(online) => st.(bridge := SetBridgeState(st.bridge, online))
    case BridgeConfig(text) =>
      (match dec.config(text)
      case None => st
      case Some(c) => ApplyConfig(st, c))
    case DeviceAvailability(name, online) => st.(bridge := SetDeviceAvailability(st.bridge, name, online))
    case DeviceTelemetry(name, text) =>
      (match dec.telemetry(text)
      case None => st
      case Some(t) => st.(bridge := UpdateDevice(st.bridge, name, t)))
    case _ => st
  }

  /** One received message: classified, then dispatched. Ignored echoes, topics no dispatcher
      takes and messages without payload change nothing. */
  function Receive(s: Settings, st: State, topic: string, payload: Option<string>, dec: Decoders): (r: State)
    ensures IsIgnoredTopic(topic) || IsSetEcho(s, topic) || payload.None? ==> r == st
    ensures Settles(st.waiting, r.waiting) && (Valid(st.waiting) ==> Valid(r.waiting))
    ensures r.waiting != st.waiting ==> Classify(s, topic, payload).BridgeLog? || Classify(s, topic, payload).BridgeConfig?
  {
    Dispatch(s, st, Classify(s, topic, payload), dec)
  }

  /** The rename, permit-join and log-level commands come back on topics the service ignores. */
  lemma ConfigEchoesIgnored(s: Settings, st: State, c: Command, payload: Option<string>, dec: Decoders)
    requires c.RenameCommand? || c.PermitJoinCommand? || c.LogLevelCommand?
    ensures Receive(s, st, CommandTopic(s.baseTopic, c), payload, dec) == st
  {
    var t := CommandTopic(s.baseTopic, c);
    var i := if c.RenameCommand? then 2 else if c.PermitJoinCommand? then 1 else 3;
    assert t[|t| - |IgnoredSuffixes[i]|..] == IgnoredSuffixes[i];
    assert EndsWith(t, IgnoredSuffixes[i]);
  }

  /** A telemetry message is decoded and handed to the telemetry reducer, which then knows the name. */
  lemma DispatchTelemetry(s: Settings, st: State, name: string, text: string, dec: Decoders)
    ensures var r := Dispatch(s, st, DeviceTelemetry(name, text), dec);
      && (dec.telemetry(text).None? ==> r == st)
      && (dec.telemetry(text).Some? ==>
            r == st.(bridge := UpdateDevice(st.bridge, name, dec.telemetry(text).value))
            && Known(r.bridge.devices, name))
  {
  }

  /** The remove command's echo reaches the telemetry reducer under the name
      "bridge/config/remove": nothing happens only because the payload, a bare friendly name, is
      not a JSON object. A payload that does decode creates a device of that name. */
  lemma RemoveEchoReachesTelemetry(s: Settings, st: State, removed: string, dec: Decoders)
    requires Separated(s)
    ensures var r := Receive(s, st, CommandTopic(s.baseTopic, RemoveCommand(removed)), Some(removed), dec);
      && (dec.telemetry(removed).None? ==> r == st)
      && (dec.telemetry(removed).Some? ==>
            r == st.(bridge := UpdateDevice(st.bridge, "bridge/config/remove", dec.telemetry(removed).value))
            && Known(r.bridge.devices, "bridge/config/remove"))
  {
    RemoveEchoIsTelemetry(s, removed);
    assert CommandTopic(s.baseTopic, RemoveCommand(removed)) == s.baseTopic + "/bridge/config/remove";
    DispatchTelemetry(s, st, "bridge/config/remove", removed, dec);
  }

  /** The log topic of the bridge under the base topic. */
  function LogTopic(s: Settings): string {
    s.baseTopic + "/bridge/log"
  }

  /** A log message is decoded and handed to the log handler. */
  lemma DispatchLog(s: Settings, st: State, text: string, dec: Decoders)
    ensures Dispatch(s, st, BridgeLog(text), dec)
         == if dec.log(text).Some? then ApplyLog(st, dec.log(text).value) else st
  {
  }

  /** A configuration message is decoded and handed to the configuration handler. */
  lemma DispatchConfig(s: Settings, st: State, text: string, dec: Decoders)
    ensures Dispatch(s, st, Route.BridgeConfig(text), dec)
         == if dec.config(text).Some? then ApplyConfig(st, dec.config(text).value) else st
  {
  }

  /** Messages on the log topic go to the log handler. */
  lemma LogRoute(s: Settings, st: State, text: string, dec: Decoders)
    requires Separated(s)
    ensures Receive(s, st, LogTopic(s), Some(text), dec)
         == if dec.log(text).Some? then ApplyLog(st, dec.log(text).value) else st
  {
    ExactTopicRoutes(s, Some(text));
    assert Classify(s, LogTopic(s), Some(text)) == BridgeLog(text);
    DispatchLog(s, st, text, dec);
  }

  /** Messages on the bridge's config topic go to the configuration handler. */
  lemma ConfigRoute(s: Settings, st: State, text: string, dec: Decoders)
    requires Separated(s)
    ensures Receive(s, st, Prefix(s) + "bridge" + "/" + SuffixText(ConfigSuffix), Some(text), dec)
         == if dec.config(text).Some? then ApplyConfig(st, dec.config(text).value) else st
  {
    BridgeSuffixRoute(s, ConfigSuffix, Some(text));
    assert Classify(s, Prefix(s) + "bridge" + "/" + SuffixText(ConfigSuffix), Some(text)) == Route.BridgeConfig(text);
    DispatchConfig(s, st, text, dec);
  }

  /** A rename confirmed by the bridge's `device_renamed` entry renames the first device with the
      old name and releases the caller; the rename list is back to what it was. */
  lemma RenameConfirmed(s: Settings, st: State, name: string, newName: string, text: string, dec: Decoders)
    requires Separated(s) && Valid(st.waiting) && name !in st.waiting.rename
    requires dec.log(text) == Some(DeviceRenamed(name, newName))
    ensures var o := RenameAndWait(st.waiting, name, newName);
      && o.Sent? && o.awaited.Some?
      && var r := Receive(s, st.(waiting := o.state), LogTopic(s), Some(text), dec);
      && o.awaited.value in r.waiting.completed
      && r.waiting.rename == st.waiting.rename
      && r.bridge == UpdateRenamedDevice(st.bridge, name, newName)
  {
    var o := RenameAndWait(st.waiting, name, newName);
    LogRoute(s, st.(waiting := o.state), text, dec);
    assert ConfirmRename(o.state, name).rename == st.waiting.rename;
  }

  /** The bridge going offline clears the snapshot and leaves the waiting lists alone. */
  lemma OfflineClears(s: Settings, st: State, dec: Decoders)
    requires Separated(s)
    ensures Receive(s, st, Prefix(s) + "bridge" + "/" + SuffixText(StateSuffix), Some("offline"), dec)
         == State(DefaultBridge, st.waiting)
  {
    BridgeSuffixRoute(s, StateSuffix, Some("offline"));
  }

  /** A permit-join request is released by the next configuration report with that value, and the
      snapshot then holds the value. */
  lemma PermitJoinConfirmed(s: Settings, st: State, permit: bool, text: string, c: BridgeConfig, dec: Decoders)
    requires Separated(s) && Valid(st.waiting)
    requires dec.config(text) == Some(c) && !c.coordinator.NoCoordinator? && c.permitJoin == Some(permit)
    ensures var o := AllowJoinAndWait(st.waiting, permit);
      var r := Receive(s, st.(waiting := o.state), Prefix(s) + "bridge" + "/" + SuffixText(ConfigSuffix), Some(text), dec);
      && o.awaited.value in r.waiting.completed
      && permit !in r.waiting.permitJoin
      && r.bridge.permitJoin == permit
  {
    var o := AllowJoinAndWait(st.waiting, permit);
    ConfigRoute(s, st.(waiting := o.state), text, dec);
  }

  /** A device's availability report goes to the availability reducer with the payload's verdict. */
  lemma AvailabilityReported(s: Settings, st: State, name: string, status: string, dec: Decoders)
    requires Separated(s) && PlainName(name) && name != "bridge"
    ensures Receive(s, st, Prefix(s) + name + "/" + SuffixText(AvailabilitySuffix), Some(status), dec)
         == st.(bridge := SetDeviceAvailability(st.bridge, name, status == "online"))
  {
    DeviceSuffixRoute(s, name, AvailabilitySuffix, Some(status));
  }
}
