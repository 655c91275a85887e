/** The snapshot reducers of `BridgeStateService`: each public operation is a pure
    `Bridge -> Bridge` step applied atomically to the current snapshot. Payloads arrive
    already parsed; a payload that fails to parse never reaches a reducer. */
module BridgeState {
  import opened Wrappers
  import opened Devices

  /** The record a by-name operation works on: the first device with that name, or `created`
      appended at the end when there is none. */
  function Locate(ds: seq<Device>, friendlyName: string, created: Device): (r: (seq<Device>, nat))
    requires created.friendlyName == friendlyName
    ensures KeyedAt(r.0, r.1) && r.0[r.1].friendlyName == friendlyName
    ensures Find(ds, ByName(friendlyName)).Some? ==> r == (ds, Find(ds, ByName(friendlyName)).value)
    ensures Find(ds, ByName(friendlyName)).None? ==> r == (ds + [created], |ds|)
  {
    match Find(ds, ByName(friendlyName))
    case Some(i) => FoundIsKeyed(ds, ByName(friendlyName)); (ds, i)
    case None => (ds + [created], |ds|)
  }

  /** Index of the record a by-name operation touches: the existing one, or the appended one. */
  function Slot(ds: seq<Device>, friendlyName: string): nat {
    match Find(ds, ByName(friendlyName))
    case Some(i) => i
    case None => |ds|
  }

  predicate Known(ds: seq<Device>, friendlyName: string) {
    Find(ds, ByName(friendlyName)).Some?
  }

  /** The optional-field overlay: a present update wins, an absent one keeps the prior value. */
  function Overlay<T>(update: Option<T>, prior: Option<T>): Option<T> {
    if update.Some? then update else prior
  }

  /** `NewDevice` (raised by a `device_connected` log event): a record that is available and
      carries the given Zigbee id and model id is added only when no device has that name. */
  function NewDevice(b: Bridge, friendlyName: string, zigbeeId: Option<string>, modelId: Option<string>): (r: Bridge)
    ensures r.(devices := b.devices) == b
    ensures Known(r.devices, friendlyName)
    ensures Known(b.devices, friendlyName) ==> r == b
    ensures !Known(b.devices, friendlyName) ==>
      && |r.devices| == |b.devices| + 1
      && r.devices[..|b.devices|] == b.devices
      && r.devices[|b.devices|].isAvailable == Some(true)
      && r.devices[|b.devices|].zigbeeId == zigbeeId
      && r.devices[|b.devices|].modelId == modelId
      && r.devices[|b.devices|].(isAvailable := None, zigbeeId := None, modelId := None) == Placeholder(friendlyName)
  {
    match Find(b.devices, ByName(friendlyName))
    case Some(_) => b
    case None =>
      var ds := b.devices + [Placeholder(friendlyName).(isAvailable := Some(true), zigbeeId := zigbeeId, modelId := modelId)];
      assert Matches(ds[|b.devices|], ByName(friendlyName));
      b.(devices := ds)
  }

  /** The fields of a device telemetry payload the reducer uses (`last_seen`, `battery`). */
  datatype Telemetry = Telemetry(lastSeen: Option<Timestamp>, battery: Option<real>)

  /** `UpdateDevice`: find or create the named device, then overlay the present fields. */
  function UpdateDevice(b: Bridge, friendlyName: string, t: Telemetry): (r: Bridge)
    ensures r.(devices := b.devices) == b
    ensures Known(r.devices, friendlyName)
    ensures |r.devices| == |b.devices| + (if Known(b.devices, friendlyName) then 0 else 1)
    ensures forall j :: 0 <= j < |b.devices| && j != Slot(b.devices, friendlyName) ==> r.devices[j] == b.devices[j]
    ensures
      var prior := if Known(b.devices, friendlyName) then b.devices[Slot(b.devices, friendlyName)] else Placeholder(friendlyName);
      r.devices[Slot(b.devices, friendlyName)]
        == prior.(lastSeen := Overlay(t.lastSeen, prior.lastSeen), batteryLevel := Overlay(t.battery, prior.batteryLevel))
  {
    var located := Locate(b.devices, friendlyName, Placeholder(friendlyName).(lastSeen := t.lastSeen));
    var ds := located.0;
    var i := located.1;
    var d := ds[i];
    if t.lastSeen.Some? || t.battery.Some? then
      var nd := d.(lastSeen := if t.lastSeen.Some? then t.lastSeen else d.lastSeen,
                   batteryLevel := if t.battery.Some? then t.battery else d.batteryLevel);
      var ds' := if nd != d then ReplaceKeyed(ds, i, nd) else ds;
      assert Matches(ds'[i], ByName(friendlyName));
      b.(devices := ds')
    else
      assert Matches(ds[i], ByName(friendlyName));
      b.(devices := ds)
  }

  /** `SetDeviceAvailability`: an unknown name gets a placeholder already carrying the value;
      a known device changes only when its availability differs, and then only in that field. */
  function SetDeviceAvailability(b: Bridge, friendlyName: string, isOnline: bool): (r: Bridge)
    ensures r.(devices := b.devices) == b
    ensures !Known(b.devices, friendlyName) ==>
      r.devices == b.devices + [Placeholder(friendlyName).(isAvailable := Some(isOnline))]
    ensures Known(b.devices, friendlyName) ==>
      var i := Slot(b.devices, friendlyName);
      && (b.devices[i].isAvailable == Some(isOnline) ==> r == b)
      && r.devices == b.devices[i := b.devices[i].(isAvailable := Some(isOnline))]
  {
    var located := Locate(b.devices, friendlyName, Placeholder(friendlyName).(isAvailable := Some(isOnline)));
    var ds := located.0;
    var i := located.1;
    var d := ds[i];
    if d.isAvailable == Some(isOnline) then b.(devices := ds)
    else b.(devices := ReplaceKeyed(ds, i, d.(isAvailable := Some(isOnline))))
  }

  /** `SetBridgeState`: going offline clears the whole snapshot; going online only raises the flag. */
  function SetBridgeState(b: Bridge, isOnline: bool): (r: Bridge)
    ensures r.online == isOnline
    ensures !isOnline ==> r.devices == [] && !r.permitJoin && r.logLevel == Info && r.coordinatorZigbeeId.None?
    ensures !isOnline ==> r == DefaultBridge
    ensures isOnline ==> r.(online := b.online) == b
  {
    if !isOnline then DefaultBridge else b.(online := isOnline)
  }

  /** The `coordinator` property of a bridge config: missing, a string, an object, or any other token. */
  datatype Coordinator =
    | NoCoordinator
    | CoordinatorText(text: string)
    | CoordinatorObject(revision: Option<string>, kind: Option<string>)
    | CoordinatorOther

  /** A parsed `<base>/bridge/config` payload. */
  datatype BridgeConfig = BridgeConfig(version: Option<string>, coordinator: Coordinator, permitJoin: Option<bool>, logLevel: Option<LogLevel>)

  /** The new snapshot together with the two out values of `SetBridgeConfig`. */
  datatype ConfigApplied = ConfigApplied(state: Bridge, isJoinAllowed: bool, logLevel: LogLevel)

  /** `SetBridgeConfig`. A missing `coordinator` key throws before anything is stored (`None`).
      Otherwise `permit_join` defaults to false and `log_level` to Info, the out values are exactly
      what is stored, and neither the device list nor the online flag moves. */
  function SetBridgeConfig(b: Bridge, c: BridgeConfig): (r: Option<ConfigApplied>)
    ensures r.None? <==> c.coordinator.NoCoordinator?
    ensures r.Some? ==>
      && r.value.isJoinAllowed == r.value.state.permitJoin == c.permitJoin.GetOr(false)
      && r.value.logLevel == r.value.state.logLevel == c.logLevel.GetOr(Info)
      && r.value.state.zigbee2MqttVersion == c.version
      && r.value.state.devices == b.devices
      && r.value.state.online == b.online
      && r.value.state.coordinatorZigbeeId == b.coordinatorZigbeeId
    ensures r.Some? && c.coordinator.CoordinatorText? ==>
      r.value.state.coordinatorVersion == Some(c.coordinator.text) && r.value.state.coordinatorType == Some("zStack")
    ensures r.Some? && c.coordinator.CoordinatorObject? ==>
      r.value.state.coordinatorVersion == c.coordinator.revision && r.value.state.coordinatorType == c.coordinator.kind
    ensures r.Some? && c.coordinator.CoordinatorOther? ==>
      r.value.state.coordinatorVersion.None? && r.value.state.coordinatorType == Some("zStack")
  {
    if c.coordinator.NoCoordinator? then None
    else
      var versionAndType: (Option<string>, Option<string>) :=
        match c.coordinator
        case CoordinatorText(text) => (Some(text), Some("zStack"))
        case CoordinatorObject(revision, kind) => (revision, kind)
        case _ => (None, Some("zStack"));
      var permitJoin := c.permitJoin.GetOr(false);
      var logLevel := c.logLevel.GetOr(Info);
      var state := b.(zigbee2MqttVersion := c.version,
                      coordinatorVersion := versionAndType.0,
                      coordinatorType := versionAndType.1,
                      permitJoin := permitJoin,
                      logLevel := logLevel);
      Some(ConfigApplied(state, permitJoin, logLevel))
  }

  /** A parsed Home Assistant discovery payload. The `device` object itself is required by the
      parse; the three topic keys keep the missing/null distinction the reducer depends on. */
  datatype DiscoveryPayload = DiscoveryPayload(
    entityName: Option<string>,
    entityId: Option<string>,
    deviceName: Option<string>,
    deviceIdentifier: Option<string>,
    stateTopic: JsonField<string>,
    attributesTopic: JsonField<string>,
    availabilityTopic: JsonField<string>)

  /** `state_topic ?? json_attributes_topic ?? availability_topic`, each read with `.Value<string>()`
      and no null-conditional operator: a JSON null falls through to the next key, a missing key
      that gets read throws. Both "all null" and "threw" leave nothing to work with. */
  function SourceTopic(p: DiscoveryPayload): (r: Option<string>)
    ensures p.stateTopic.Present? ==> r == Some(p.stateTopic.value)
    ensures p.stateTopic.Absent? ==> r.None?
    ensures p.stateTopic.JsonNull? && p.attributesTopic.Present? ==> r == Some(p.attributesTopic.value)
    ensures p.stateTopic.JsonNull? && p.attributesTopic.JsonNull? ==> r == p.availabilityTopic.OrNull()
  {
    match p.stateTopic
    case Present(t) => Some(t)
    case Absent => None
    case JsonNull =>
      match p.attributesTopic
      case Present(t) => Some(t)
      case Absent => None
      case JsonNull => p.availabilityTopic.OrNull()
  }

  /** The device a discovery message is attached to: the first one with the Zigbee id, else the
      one named by the source topic, created (with that id as both ZigbeeId and UniqueId) when unknown. */
  function EntityTarget(ds: seq<Device>, zigbeeId: string, p: DiscoveryPayload, nameFromTopic: string -> Option<string>)
    : (r: Option<(seq<Device>, nat)>)
    ensures r.Some? ==> KeyedAt(r.value.0, r.value.1)
    ensures r.Some? ==> |ds| <= |r.value.0| <= |ds| + 1 && r.value.0[..|ds|] == ds
    ensures Find(ds, ById(zigbeeId)).Some? ==> r == Some((ds, Find(ds, ById(zigbeeId)).value))
    ensures Find(ds, ById(zigbeeId)).None? ==>
      (r.None? <==> SourceTopic(p).None? || nameFromTopic(SourceTopic(p).value).None?)
    ensures Find(ds, ById(zigbeeId)).None? && r.Some? ==>
      var name := nameFromTopic(SourceTopic(p).value).value;
      && r.value.0[r.value.1].friendlyName == name
      && (Known(ds, name) ==> r.value == (ds, Slot(ds, name)))
      && (!Known(ds, name) ==> r.value.0 == ds + [Placeholder(name).(uniqueId := Some(zigbeeId), zigbeeId := Some(zigbeeId))])
  {
    match Find(ds, ById(zigbeeId))
    case Some(i) => FoundIsKeyed(ds, ById(zigbeeId)); Some((ds, i))
    case None =>
      match SourceTopic(p)
      case None => None
      case Some(topic) =>
        match nameFromTopic(topic)
        case None => None
        case Some(name) =>
          Some(Locate(ds, name, Placeholder(name).(uniqueId := Some(zigbeeId), zigbeeId := Some(zigbeeId))))
  }

  /** `devices.Replace(d, nd)` guarded by `nd != d`, for an edit that keeps name and Zigbee id. */
  function ReplaceIfChanged(ds: seq<Device>, i: nat, nd: Device): (r: seq<Device>)
    requires KeyedAt(ds, i)
    requires nd.friendlyName == ds[i].friendlyName && nd.zigbeeId == ds[i].zigbeeId
    ensures r == ds[i := nd] && KeyedAt(r, i)
  {
    if nd != ds[i] then ReplaceKeyed(ds, i, nd) else ds
  }

  /** First edit of a discovery merge: a record whose ZigbeeId differs from the discovered id
      gets that id as its UniqueId (the ZigbeeId itself is left alone). */
  function AdoptId(d: Device, zigbeeId: string): Device {
    if d.zigbeeId != Some(zigbeeId) then d.(uniqueId := Some(zigbeeId)) else d
  }

  /** Second edit: the entity is appended only when none with this component exists. */
  function AttachEntity(d: Device, entityClass: string, component: string, p: DiscoveryPayload): Device {
    if FindEntity(d.entities, component).None?
    then d.(entities := d.entities + [Entity(p.entityId, component, p.entityName, entityClass)])
    else d
  }

  /** Third edit: device name and identifier are overwritten together when either is present. */
  function NameDevice(d: Device, p: DiscoveryPayload): Device {
    if p.deviceName.Some? || p.deviceIdentifier.Some?
    then d.(name := p.deviceName, uniqueId := p.deviceIdentifier)
    else d
  }

  /** The three edits of a discovery merge, as their combined effect on one record. */
  function EnrichDevice(d: Device, zigbeeId: string, entityClass: string, component: string, p: DiscoveryPayload): (nd: Device)
    ensures nd.friendlyName == d.friendlyName && nd.zigbeeId == d.zigbeeId
    ensures FindEntity(d.entities, component).Some? ==> nd.entities == d.entities
    ensures FindEntity(d.entities, component).None? ==>
      nd.entities == d.entities + [Entity(p.entityId, component, p.entityName, entityClass)]
    ensures p.deviceName.Some? || p.deviceIdentifier.Some? ==>
      nd.name == p.deviceName && nd.uniqueId == p.deviceIdentifier
    ensures p.deviceName.None? && p.deviceIdentifier.None? ==>
      nd.name == d.name && nd.uniqueId == (if d.zigbeeId != Some(zigbeeId) then Some(zigbeeId) else d.uniqueId)
    ensures nd.(entities := d.entities, name := d.name, uniqueId := d.uniqueId) == d
  {
    NameDevice(AttachEntity(AdoptId(d, zigbeeId), entityClass, component, p), p)
  }

  /** The three edits applied one after the other to the record at `i`, each stored only when it
      changes the record. */
  function EnrichAt(ds: seq<Device>, i: nat, zigbeeId: string, entityClass: string, component: string, p: DiscoveryPayload)
    : (r: seq<Device>)
    requires KeyedAt(ds, i)
    ensures r == ds[i := EnrichDevice(ds[i], zigbeeId, entityClass, component, p)]
  {
    var d1 := AdoptId(ds[i], zigbeeId);
    var ds1 := ReplaceIfChanged(ds, i, d1);
    var d2 := AttachEntity(d1, entityClass, component, p);
    var ds2 := ReplaceIfChanged(ds1, i, d2);
    var d3 := NameDevice(d2, p);
    ReplaceIfChanged(ds2, i, d3)
  }

  /** `SetDeviceEntity`: attach a discovered entity to its device. With no target (no topic, or
      no name derivable from it, and no device with the id) the snapshot is unchanged; otherwise
      exactly the target record is edited, as `EnrichDevice` states. */
  function SetDeviceEntity(
    b: Bridge, zigbeeId: string, entityClass: string, component: string,
    p: DiscoveryPayload, nameFromTopic: string -> Option<string>): (r: Bridge)
    ensures r.(devices := b.devices) == b
    ensures EntityTarget(b.devices, zigbeeId, p, nameFromTopic).None? ==> r == b
    ensures EntityTarget(b.devices, zigbeeId, p, nameFromTopic).Some? ==>
      var ds := EntityTarget(b.devices, zigbeeId, p, nameFromTopic).value.0;
      var i := EntityTarget(b.devices, zigbeeId, p, nameFromTopic).value.1;
      r.devices == ds[i := EnrichDevice(ds[i], zigbeeId, entityClass, component, p)]
  {
    match EntityTarget(b.devices, zigbeeId, p, nameFromTopic)
    case None => b
    case Some(target) => b.(devices := EnrichAt(target.0, target.1, zigbeeId, entityClass, component, p))
  }

  /** `UpdateRenamedDevice`: the first device named `from` takes the name `to`; nothing else changes. */
  function UpdateRenamedDevice(b: Bridge, from: string, to: string): (r: Bridge)
    ensures r.(devices := b.devices) == b
    ensures !Known(b.devices, from) ==> r == b
    ensures Known(b.devices, from) ==>
      var i := Slot(b.devices, from);
      r.devices == b.devices[i := b.devices[i].(friendlyName := to)]
  {
    match Find(b.devices, ByName(from))
    case None => b
    case Some(i) =>
      FoundIsKeyed(b.devices, ByName(from));
      var d := b.devices[i];
      var nd := d.(friendlyName := to);
      if nd != d then b.(devices := ReplaceKeyed(b.devices, i, nd)) else b
  }

  /** `RemoveDevice`: the first device with the name is deleted; an unknown name is a no-op. */
  function RemoveDevice(b: Bridge, friendlyName: string): (r: Bridge)
    ensures r.(devices := b.devices) == b
    ensures !Known(b.devices, friendlyName) ==> r == b
    ensures Known(b.devices, friendlyName) ==>
      var i := Slot(b.devices, friendlyName);
      r.devices == b.devices[..i] + b.devices[i + 1..]
  {
    match Find(b.devices, ByName(friendlyName))
    case None => b
    case Some(i) =>
      FoundIsFirstOccurrence(b.devices, ByName(friendlyName));
      RemoveFirstAt(b.devices, i);
      b.(devices := RemoveFirst(b.devices, b.devices[i]))
  }

  /** A record edited in place under its own name is still the one the name finds. */
  lemma SlotAfterEdit(ds: seq<Device>, name: string, nd: Device)
    requires Known(ds, name) && nd.friendlyName == name
    ensures Find(ds[Slot(ds, name) := nd], ByName(name)) == Some(Slot(ds, name))
  {
    FindAt(ds[Slot(ds, name) := nd], ByName(name), Slot(ds, name));
  }

  /** A name no record has is found at the record appended for it. */
  lemma SlotAfterAppend(ds: seq<Device>, name: string, d: Device)
    requires !Known(ds, name) && d.friendlyName == name
    ensures Find(ds + [d], ByName(name)) == Some(|ds|)
  {
    FindAppended(ds, [d], ByName(name), 0);
  }

  /** A device that joins twice is added once. */
  lemma NewDeviceIdempotent(b: Bridge, friendlyName: string, zigbeeId: Option<string>, modelId: Option<string>,
                            zigbeeId': Option<string>, modelId': Option<string>)
    ensures NewDevice(NewDevice(b, friendlyName, zigbeeId, modelId), friendlyName, zigbeeId', modelId')
         == NewDevice(b, friendlyName, zigbeeId, modelId)
  {
  }

  /** Reporting the same availability twice is reporting it once. */
  lemma AvailabilityIdempotent(b: Bridge, friendlyName: string, isOnline: bool)
    ensures SetDeviceAvailability(SetDeviceAvailability(b, friendlyName, isOnline), friendlyName, isOnline)
         == SetDeviceAvailability(b, friendlyName, isOnline)
  {
    if Known(b.devices, friendlyName) {
      var i := Slot(b.devices, friendlyName);
      SlotAfterEdit(b.devices, friendlyName, b.devices[i].(isAvailable := Some(isOnline)));
    } else {
      SlotAfterAppend(b.devices, friendlyName, Placeholder(friendlyName).(isAvailable := Some(isOnline)));
    }
  }

  /** The record a telemetry update wrote is the one the same name finds afterwards. */
  lemma UpdatedSlot(b: Bridge, friendlyName: string, t: Telemetry)
    ensures Find(UpdateDevice(b, friendlyName, t).devices, ByName(friendlyName)) == Some(Slot(b.devices, friendlyName))
  {
    var r := UpdateDevice(b, friendlyName, t);
    var i := Slot(b.devices, friendlyName);
    assert r.devices[i].friendlyName == friendlyName;
    assert forall j :: 0 <= j < i ==> r.devices[j] == b.devices[j];
    FindAt(r.devices, ByName(friendlyName), i);
  }

  /** Applying the same telemetry twice is applying it once. */
  lemma UpdateDeviceIdempotent(b: Bridge, friendlyName: string, t: Telemetry)
    ensures UpdateDevice(UpdateDevice(b, friendlyName, t), friendlyName, t) == UpdateDevice(b, friendlyName, t)
  {
    var r := UpdateDevice(b, friendlyName, t);
    var r2 := UpdateDevice(r, friendlyName, t);
    UpdatedSlot(b, friendlyName, t);
    assert Slot(r.devices, friendlyName) == Slot(b.devices, friendlyName);
    assert |r2.devices| == |r.devices|;
    assert forall j :: 0 <= j < |r.devices| ==> r2.devices[j] == r.devices[j];
    assert r2.devices == r.devices;
  }

  /** Renaming a device to a name no device has, and back, restores the snapshot. */
  lemma RenameAndBack(b: Bridge, from: string, to: string)
    requires Known(b.devices, from) && !Known(b.devices, to)
    ensures UpdateRenamedDevice(UpdateRenamedDevice(b, from, to), to, from) == b
  {
    var i := Slot(b.devices, from);
    var r := UpdateRenamedDevice(b, from, to);
    FindAt(r.devices, ByName(to), i);
    assert r.devices[i := r.devices[i].(friendlyName := from)] == b.devices;
  }

  /** A device that joins and is removed again leaves no trace. */
  lemma JoinThenRemove(b: Bridge, friendlyName: string, zigbeeId: Option<string>, modelId: Option<string>)
    requires !Known(b.devices, friendlyName)
    ensures RemoveDevice(NewDevice(b, friendlyName, zigbeeId, modelId), friendlyName) == b
  {
    var r := NewDevice(b, friendlyName, zigbeeId, modelId);
    var n := |b.devices|;
    assert r.devices == b.devices + [r.devices[n]];
    SlotAfterAppend(b.devices, friendlyName, r.devices[n]);
    assert r.devices[..n] + r.devices[n + 1..] == b.devices;
  }

  /** The three edits of a discovery merge are idempotent: the entity is there now, the name
      and identifier are written again with the same values, the id is adopted again. */
  lemma EnrichIdempotent(d: Device, zigbeeId: string, entityClass: string, component: string, p: DiscoveryPayload)
    ensures var nd := EnrichDevice(d, zigbeeId, entityClass, component, p);
      EnrichDevice(nd, zigbeeId, entityClass, component, p) == nd
  {
    var nd := EnrichDevice(d, zigbeeId, entityClass, component, p);
    if FindEntity(d.entities, component).None? {
      var n := |d.entities|;
      assert nd.entities[n].component == component;
      assert FindEntity(nd.entities, component).Some?;
    }
  }

  /** An edit that keeps the Zigbee id of a list where no record has `zigbeeId` keeps it so. */
  lemma NoIdAfterEdit(ds: seq<Device>, zigbeeId: string, i: nat, nd: Device)
    requires Find(ds, ById(zigbeeId)).None? && i < |ds| && nd.zigbeeId == ds[i].zigbeeId
    ensures Find(ds[i := nd], ById(zigbeeId)).None?
  {
    assert forall j :: 0 <= j < |ds| ==> ds[i := nd][j].zigbeeId == ds[j].zigbeeId;
  }

  /** After a discovery merge, the same message finds the record it edited. */
  lemma TargetAfterMerge(
    b: Bridge, zigbeeId: string, entityClass: string, component: string,
    p: DiscoveryPayload, nameFromTopic: string -> Option<string>)
    requires EntityTarget(b.devices, zigbeeId, p, nameFromTopic).Some?
    ensures var r := SetDeviceEntity(b, zigbeeId, entityClass, component, p, nameFromTopic);
      EntityTarget(r.devices, zigbeeId, p, nameFromTopic)
        == Some((r.devices, EntityTarget(b.devices, zigbeeId, p, nameFromTopic).value.1))
  {
    var ds := EntityTarget(b.devices, zigbeeId, p, nameFromTopic).value.0;
    var i := EntityTarget(b.devices, zigbeeId, p, nameFromTopic).value.1;
    var nd := EnrichDevice(ds[i], zigbeeId, entityClass, component, p);
    TargetAfterEdit(b.devices, zigbeeId, p, nameFromTopic, nd);
  }

  /** An edit of the target record that keeps its name and Zigbee id leaves it the target. */
  lemma TargetAfterEdit(ds: seq<Device>, zigbeeId: string, p: DiscoveryPayload, nameFromTopic: string -> Option<string>, nd: Device)
    requires EntityTarget(ds, zigbeeId, p, nameFromTopic).Some?
    requires var t := EntityTarget(ds, zigbeeId, p, nameFromTopic).value;
      nd.friendlyName == t.0[t.1].friendlyName && nd.zigbeeId == t.0[t.1].zigbeeId
    ensures var t := EntityTarget(ds, zigbeeId, p, nameFromTopic).value;
      EntityTarget(t.0[t.1 := nd], zigbeeId, p, nameFromTopic) == Some((t.0[t.1 := nd], t.1))
  {
    var t := EntityTarget(ds, zigbeeId, p, nameFromTopic).value;
    var i := t.1;
    if Find(ds, ById(zigbeeId)).Some? {
      FindAt(ds[i := nd], ById(zigbeeId), i);
    } else {
      var name := nameFromTopic(SourceTopic(p).value).value;
      if Known(ds, name) {
        NoIdAfterEdit(ds, zigbeeId, i, nd);
        SlotAfterEdit(ds, name, nd);
      } else {
        assert t.0[i := nd] == ds + [nd];
        FindAppended(ds, [nd], ById(zigbeeId), 0);
      }
    }
  }

  /** Discovery messages are retained and delivered again: a repeated one changes nothing. */
  lemma DiscoveryIdempotent(
    b: Bridge, zigbeeId: string, entityClass: string, component: string,
    p: DiscoveryPayload, nameFromTopic: string -> Option<string>)
    ensures var r := SetDeviceEntity(b, zigbeeId, entityClass, component, p, nameFromTopic);
      SetDeviceEntity(r, zigbeeId, entityClass, component, p, nameFromTopic) == r
  {
    if EntityTarget(b.devices, zigbeeId, p, nameFromTopic).Some? {
      var r := SetDeviceEntity(b, zigbeeId, entityClass, component, p, nameFromTopic);
      var ds := EntityTarget(b.devices, zigbeeId, p, nameFromTopic).value.0;
      var i := EntityTarget(b.devices, zigbeeId, p, nameFromTopic).value.1;
      var nd := EnrichDevice(ds[i], zigbeeId, entityClass, component, p);
      assert r.devices == ds[i := nd];
      TargetAfterMerge(b, zigbeeId, entityClass, component, p, nameFromTopic);
      EnrichIdempotent(ds[i], zigbeeId, entityClass, component, p);
      var r2 := SetDeviceEntity(r, zigbeeId, entityClass, component, p, nameFromTopic);
      assert r2.devices == r.devices[i := EnrichDevice(nd, zigbeeId, entityClass, component, p)];
      assert r2.devices == r.devices;
    }
  }
}
