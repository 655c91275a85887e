/** The bridge snapshot and its device records, with the immutable-array operations the
    reducers use to edit them. Field sets follow what the reducers read and write. */
module Devices {
  import opened Wrappers

  /** `ushort`: link qualities. */
  type UShort = x: int | 0 <= x < 0x1_0000

  /** A `DateTimeOffset` instant, kept opaque as a tick count. */
  type Timestamp = int

  datatype LogLevel = Debug | Info | Warn | Error

  /** A Home Assistant entity attached to a device; keyed by `component` within its device. */
  datatype Entity = Entity(entityId: Option<string>, component: string, name: Option<string>, deviceClass: string)

  /** One `(zigbeeId, linkQuality)` entry of a device's parent list. */
  datatype ParentLink = ParentLink(zigbeeId: string, linkQuality: UShort)

  /** A device record. Value equality is the generated structural equality of the source. */
  datatype Device = Device(
    zigbeeId: Option<string>,
    friendlyName: string,
    uniqueId: Option<string>,
    name: Option<string>,
    isAvailable: Option<bool>,
    lastSeen: Option<Timestamp>,
    batteryLevel: Option<real>,
    deviceType: Option<string>,
    model: Option<string>,
    modelId: Option<string>,
    networkAddress: Option<nat>,
    hardwareVersion: Option<int>,
    manufacturer: Option<string>,
    entities: seq<Entity>,
    parents: seq<ParentLink>)

  /** A fresh record built from only a friendly name (the `new ZigbeeDevice.Builder { FriendlyName = … }`). */
  function Placeholder(friendlyName: string): (d: Device)
    ensures d.friendlyName == friendlyName && d.zigbeeId.None? && d.isAvailable.None?
    ensures d.entities == [] && d.parents == []
  {
    Device(None, friendlyName, None, None, None, None, None, None, None, None, None, None, None, [], [])
  }

  /** The whole snapshot: bridge flags plus the device list. */
  datatype Bridge = Bridge(
    online: bool,
    logLevel: LogLevel,
    permitJoin: bool,
    zigbee2MqttVersion: Option<string>,
    coordinatorVersion: Option<string>,
    coordinatorType: Option<string>,
    coordinatorZigbeeId: Option<string>,
    devices: seq<Device>)

  /** `Bridge.Default`: offline, log level Info, join not permitted, no devices. */
  const DefaultBridge: Bridge := Bridge(false, Info, false, None, None, None, None, [])

  /** The three lookups the reducers perform with `FirstOrDefault`. */
  datatype Key =
    | ByName(name: string)
    | ById(zigbeeId: string)
    | ByNameOrId(friendlyName: string, optionalId: Option<string>)

  predicate Matches(d: Device, k: Key) {
    match k
    case ByName(n) => d.friendlyName == n
    case ById(id) => d.zigbeeId == Some(id)
    case ByNameOrId(n, id) => d.friendlyName == n || (id.Some? && d.zigbeeId == id)
  }

  /** Index of the first device matching `k`, the position `FirstOrDefault` returns. */
  function Find(ds: seq<Device>, k: Key): (r: Option<nat>)
    ensures r.Some? ==> r.value < |ds| && Matches(ds[r.value], k)
    ensures r.Some? ==> forall j :: 0 <= j < r.value ==> !Matches(ds[j], k)
    ensures r.None? ==> forall j :: 0 <= j < |ds| ==> !Matches(ds[j], k)
  {
    if |ds| == 0 then None
    else if Matches(ds[0], k) then Some(0)
    else match Find(ds[1..], k)
      case None => None
      case Some(i) => Some(i + 1)
  }

  /** A lookup finds `i` exactly when the record there matches and no earlier one does. */
  lemma {:induction false} FindAt(ds: seq<Device>, k: Key, i: nat)
    requires i < |ds| && Matches(ds[i], k)
    requires forall j :: 0 <= j < i ==> !Matches(ds[j], k)
    ensures Find(ds, k) == Some(i)
  {
    if i > 0 {
      assert ds[1..][i - 1] == ds[i];
      FindAt(ds[1..], k, i - 1);
    }
  }

  /** Behind a prefix without a match, a lookup lands where it lands in the rest. */
  lemma {:induction false} FindAfter(ds: seq<Device>, more: seq<Device>, k: Key)
    requires forall j :: 0 <= j < |ds| ==> !Matches(ds[j], k)
    ensures Find(more, k).None? ==> Find(ds + more, k).None?
    ensures Find(more, k).Some? ==> Find(ds + more, k) == Some(|ds| + Find(more, k).value)
  {
    if |ds| > 0 {
      assert (ds + more)[0] == ds[0];
      assert (ds + more)[1..] == ds[1..] + more;
      FindAfter(ds[1..], more, k);
    } else {
      assert ds + more == more;
    }
  }

  /** A lookup over a prefix without a match and a rest whose first match is at `i`. */
  lemma FindAppended(ds: seq<Device>, more: seq<Device>, k: Key, i: nat)
    requires forall j :: 0 <= j < |ds| ==> !Matches(ds[j], k)
    requires i < |more| && Matches(more[i], k)
    requires forall j :: 0 <= j < i ==> !Matches(more[j], k)
    ensures Find(ds + more, k) == Some(|ds| + i)
  {
    FindAt(more, k, i);
    FindAfter(ds, more, k);
  }

  /** Index of the first entity with the given component. */
  function FindEntity(es: seq<Entity>, component: string): (r: Option<nat>)
    ensures r.Some? ==> r.value < |es| && es[r.value].component == component
    ensures r.None? ==> forall j :: 0 <= j < |es| ==> es[j].component != component
  {
    if |es| == 0 then None
    else if es[0].component == component then Some(0)
    else match FindEntity(es[1..], component)
      case None => None
      case Some(i) => Some(i + 1)
  }

  /** Index of the first parent entry for the given target. */
  function FindParent(ps: seq<ParentLink>, target: string): (r: Option<nat>)
    ensures r.Some? ==> r.value < |ps| && ps[r.value].zigbeeId == target
    ensures r.Some? ==> forall j :: 0 <= j < r.value ==> ps[j].zigbeeId != target
    ensures r.None? ==> forall j :: 0 <= j < |ps| ==> ps[j].zigbeeId != target
  {
    if |ps| == 0 then None
    else if ps[0].zigbeeId == target then Some(0)
    else match FindParent(ps[1..], target)
      case None => None
      case Some(i) => Some(i + 1)
  }

  /** A parent lookup finds `i` exactly when the entry there names the target and no earlier one does. */
  lemma {:induction false} FindParentAt(ps: seq<ParentLink>, target: string, i: nat)
    requires i < |ps| && ps[i].zigbeeId == target
    requires forall j :: 0 <= j < i ==> ps[j].zigbeeId != target
    ensures FindParent(ps, target) == Some(i)
  {
    if i > 0 {
      assert ps[1..][i - 1] == ps[i];
      FindParentAt(ps[1..], target, i - 1);
    }
  }

  /** Position of the first element equal to `x`. */
  function IndexOf<T(==)>(s: seq<T>, x: T): (i: nat)
    requires x in s
    ensures i < |s| && s[i] == x
    ensures forall j :: 0 <= j < i ==> s[j] != x
  {
    if s[0] == x then 0 else 1 + IndexOf(s[1..], x)
  }

  /** `ImmutableArray.Replace(oldValue, newValue)`: the first element equal to `oldValue` becomes
      `newValue`. The array method throws when `oldValue` is missing; every caller passes an element it holds. */
  function ReplaceFirst<T(==)>(s: seq<T>, oldValue: T, newValue: T): (r: seq<T>)
    requires oldValue in s
    ensures |r| == |s|
  {
    s[IndexOf(s, oldValue) := newValue]
  }

  /** `ImmutableArray.Remove(x)`: drops the first element equal to `x`, if any. */
  function RemoveFirst<T(==)>(s: seq<T>, x: T): (r: seq<T>)
    ensures x !in s ==> r == s
  {
    if x in s then var i := IndexOf(s, x); s[..i] + s[i + 1..] else s
  }

  /** No earlier element is equal to the one at `i`. */
  predicate FirstOccurrence<T(==)>(s: seq<T>, i: nat) {
    i < |s| && forall j :: 0 <= j < i ==> s[j] != s[i]
  }

  /** The element a key lookup finds is the first element equal to itself. */
  lemma FoundIsFirstOccurrence(ds: seq<Device>, k: Key)
    requires Find(ds, k).Some?
    ensures FirstOccurrence(ds, Find(ds, k).value)
  {
  }

  /** The device a key lookup finds is keyed at its index. */
  lemma FoundIsKeyed(ds: seq<Device>, k: Key)
    requires Find(ds, k).Some?
    ensures KeyedAt(ds, Find(ds, k).value)
  {
  }

  /** When the element at `i` is its own first occurrence, replacing it by value acts at `i`. */
  lemma ReplaceFirstAt<T>(s: seq<T>, i: nat, newValue: T)
    requires FirstOccurrence(s, i)
    ensures ReplaceFirst(s, s[i], newValue) == s[i := newValue]
  {
  }

  /** When the element at `i` is its own first occurrence, removing it by value removes index `i`. */
  lemma RemoveFirstAt<T>(s: seq<T>, i: nat)
    requires FirstOccurrence(s, i)
    ensures RemoveFirst(s, s[i]) == s[..i] + s[i + 1..]
  {
  }

  /** The device at `i` is found first by its name or by its Zigbee id, so no earlier record
      can share both; edits that keep name and id keep this true. */
  predicate KeyedAt(ds: seq<Device>, i: nat) {
    && i < |ds|
    && ((forall j :: 0 <= j < i ==> ds[j].friendlyName != ds[i].friendlyName)
        || (forall j :: 0 <= j < i ==> ds[j].zigbeeId != ds[i].zigbeeId))
  }

  /** `devices.Replace(ds[i], nd)` for a record found by name or id: exactly position `i` changes,
      and the edited record is still found there when it keeps its name and id. */
  function ReplaceKeyed(ds: seq<Device>, i: nat, nd: Device): (r: seq<Device>)
    requires KeyedAt(ds, i)
    ensures r == ds[i := nd]
    ensures nd.friendlyName == ds[i].friendlyName && nd.zigbeeId == ds[i].zigbeeId ==> KeyedAt(r, i)
  {
    ReplaceFirstAt(ds, i, nd);
    ReplaceFirst(ds, ds[i], nd)
  }
}
