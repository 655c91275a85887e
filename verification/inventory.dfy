/** `UpdateDevices`: merging the bridge's full device list (`<base>/bridge/config/devices`)
    into the snapshot, entry by entry. */
module Inventory {
  import opened Wrappers
  import opened Text
  import opened Devices

  /** One element of the device list. String fields that the source post-processes with a method
      call (`.Equals`, `.Trim`) and numeric fields keep the missing/null distinction, because a
      JSON null there throws. */
  datatype InventoryEntry = InventoryEntry(
    friendlyName: Option<string>,
    ieeeAddr: Option<string>,
    deviceType: JsonField<string>,
    modelId: JsonField<string>,
    model: JsonField<string>,
    nwkAddr: JsonField<int>,
    hwVersion: JsonField<int>,
    manufName: JsonField<string>)

  const UIntLimit: int := 0x1_0000_0000
  const LongMin: int := -0x8000_0000_0000_0000
  const LongLimit: int := 0x8000_0000_0000_0000

  /** True when the blank-name check dereferences `type`. */
  predicate HasBlankName(e: InventoryEntry) {
    IsNullOrWhiteSpace(e.friendlyName)
  }

  /** Reading this entry throws: `type` is JSON null where `.Equals` is called on it, a string
      that is `.Trim()`med is JSON null, or a number is null or outside `uint` / `long`. */
  predicate Faulty(e: InventoryEntry) {
    || (HasBlankName(e) && e.deviceType.JsonNull?)
    || e.modelId.JsonNull? || e.model.JsonNull? || e.manufName.JsonNull?
    || e.nwkAddr.JsonNull? || (e.nwkAddr.Present? && !(0 <= e.nwkAddr.value < UIntLimit))
    || e.hwVersion.JsonNull? || (e.hwVersion.Present? && !(LongMin <= e.hwVersion.value < LongLimit))
  }

  /** A blank name stands for the coordinator. */
  function CanonicalName(e: InventoryEntry): string {
    if HasBlankName(e) then "Coordinator" else e.friendlyName.value
  }

  /** A blank-named entry of type "Coordinator" (any letter case) names the coordinator's id. */
  predicate IsCoordinatorEntry(e: InventoryEntry) {
    HasBlankName(e) && e.deviceType.Present? && EqualsIgnoreCase(e.deviceType.value, "Coordinator")
  }

  /** The lookup key: same friendly name, or same (present) Zigbee id. */
  function Target(e: InventoryEntry): Key {
    ByNameOrId(CanonicalName(e), e.ieeeAddr)
  }

  function CleanField(f: JsonField<string>): Option<string> {
    match f
    case Present(s) => Some(Clean(s))
    case _ => None
  }

  function NatField(f: JsonField<int>): Option<nat> {
    if f.Present? && f.value >= 0 then Some(f.value as nat) else None
  }

  /** The `With…` chain applied to a record. Note the swap: the entry's `modelId` is stored as
      the record's `Model`, and its `model` as the record's `ModelId`. */
  function Apply(d: Device, e: InventoryEntry): (nd: Device)
    ensures nd.friendlyName == d.friendlyName && nd.zigbeeId == e.ieeeAddr
    ensures nd.entities == d.entities && nd.parents == d.parents
  {
    d.(zigbeeId := e.ieeeAddr,
       deviceType := e.deviceType.OrNull(),
       model := CleanField(e.modelId),
       modelId := CleanField(e.model),
       networkAddress := NatField(e.nwkAddr),
       hardwareVersion := e.hwVersion.OrNull(),
       manufacturer := CleanField(e.manufName))
  }

  /** The record an entry creates when nothing matches it. */
  function Created(e: InventoryEntry): Device {
    Apply(Placeholder(CanonicalName(e)), e)
  }

  /** One iteration of the loop, for an entry that does not throw. */
  function Step(b: Bridge, e: InventoryEntry): (r: Bridge)
    requires !Faulty(e)
    ensures r.(devices := b.devices, coordinatorZigbeeId := b.coordinatorZigbeeId) == b
    ensures r.coordinatorZigbeeId == if IsCoordinatorEntry(e) then e.ieeeAddr else b.coordinatorZigbeeId
    ensures Find(b.devices, Target(e)).None? ==> r.devices == b.devices + [Created(e)]
    ensures Find(b.devices, Target(e)).Some? ==>
      var i := Find(b.devices, Target(e)).value;
      r.devices == b.devices[i := Apply(b.devices[i], e)]
  {
    var b1 := if IsCoordinatorEntry(e) then b.(coordinatorZigbeeId := e.ieeeAddr) else b;
    match Find(b1.devices, Target(e))
    case None => b1.(devices := b1.devices + [Created(e)])
    case Some(i) =>
      var d := b1.devices[i];
      var nd := Apply(d, e);
      if d != nd then
        FoundIsFirstOccurrence(b1.devices, Target(e));
        ReplaceFirstAt(b1.devices, i, nd);
        b1.(devices := ReplaceFirst(b1.devices, d, nd))
      else b1
  }

  /** The loop over the list. `None` when an entry throws: the exception escapes the update
      closure, so nothing of the list is stored. */
  function Run(b: Bridge, es: seq<InventoryEntry>): (r: Option<Bridge>)
    ensures r.Some? <==> forall k :: 0 <= k < |es| ==> !Faulty(es[k])
    ensures r.Some? ==> r.value.(devices := b.devices, coordinatorZigbeeId := b.coordinatorZigbeeId) == b
    ensures r.Some? ==> |r.value.devices| >= |b.devices|
    ensures r.Some? ==> forall j :: 0 <= j < |b.devices| ==> r.value.devices[j].friendlyName == b.devices[j].friendlyName
    decreases |es|
  {
    if |es| == 0 then Some(b)
    else if Faulty(es[0]) then None
    else
      var next := Run(Step(b, es[0]), es[1..]);
      assert forall k :: 1 <= k < |es| ==> es[1..][k - 1] == es[k];
      next
  }

  /** `UpdateDevices`: every entry is merged in order; a malformed entry anywhere discards the
      whole list. Existing records are never removed, reordered or renamed; unmatched entries
      are appended; only the device list and the coordinator id can change. */
  function UpdateDevices(b: Bridge, es: seq<InventoryEntry>): (r: Bridge)
    ensures (exists k :: 0 <= k < |es| && Faulty(es[k])) ==> r == b
    ensures r.(devices := b.devices, coordinatorZigbeeId := b.coordinatorZigbeeId) == b
    ensures |r.devices| >= |b.devices|
    ensures forall j :: 0 <= j < |b.devices| ==> r.devices[j].friendlyName == b.devices[j].friendlyName
  {
    Run(b, es).GetOr(b)
  }

  /** After an entry is merged, merging it again changes nothing. */
  lemma StepIdempotent(b: Bridge, e: InventoryEntry)
    requires !Faulty(e)
    ensures Step(Step(b, e), e) == Step(b, e)
  {
    var r := Step(b, e);
    match Find(b.devices, Target(e))
    case None =>
      FindAt(r.devices, Target(e), |b.devices|);
    case Some(i) =>
      FindAt(r.devices, Target(e), i);
  }

  /** A one-entry list is idempotent. */
  lemma SingleEntryIdempotent(b: Bridge, e: InventoryEntry)
    ensures UpdateDevices(UpdateDevices(b, [e]), [e]) == UpdateDevices(b, [e])
  {
    if !Faulty(e) {
      assert Run(b, [e]) == Run(Step(b, e), []);
      StepIdempotent(b, e);
      assert Run(Step(b, e), [e]) == Run(Step(Step(b, e), e), []);
    }
  }

  /** The coordinator id after merging `es` from `c`: the id of the last coordinator entry, or `c`. */
  function LastCoordinator(es: seq<InventoryEntry>, c: Option<string>): Option<string>
    decreases |es|
  {
    if |es| == 0 then c
    else LastCoordinator(es[1..], if IsCoordinatorEntry(es[0]) then es[0].ieeeAddr else c)
  }

  predicate HasCoordinatorEntry(es: seq<InventoryEntry>) {
    exists k :: 0 <= k < |es| && IsCoordinatorEntry(es[k])
  }

  /** Without a coordinator entry the starting id survives. */
  lemma {:induction false} LastCoordinatorKeeps(es: seq<InventoryEntry>, c: Option<string>)
    requires !HasCoordinatorEntry(es)
    ensures LastCoordinator(es, c) == c
    decreases |es|
  {
    if |es| > 0 {
      assert forall k :: 0 <= k < |es| - 1 ==> es[1..][k] == es[k + 1];
      LastCoordinatorKeeps(es[1..], c);
    }
  }

  /** With a coordinator entry the starting id is irrelevant. */
  lemma {:induction false} LastCoordinatorOverrides(es: seq<InventoryEntry>, c1: Option<string>, c2: Option<string>)
    requires HasCoordinatorEntry(es)
    ensures LastCoordinator(es, c1) == LastCoordinator(es, c2)
    decreases |es|
  {
    if !IsCoordinatorEntry(es[0]) {
      var k :| 0 <= k < |es| && IsCoordinatorEntry(es[k]);
      assert es[1..][k - 1] == es[k];
      LastCoordinatorOverrides(es[1..], c1, c2);
    }
  }

  /** Merging the same list's coordinator entries twice gives the id once. */
  lemma LastCoordinatorAbsorbs(es: seq<InventoryEntry>, c: Option<string>)
    ensures LastCoordinator(es, LastCoordinator(es, c)) == LastCoordinator(es, c)
  {
    if HasCoordinatorEntry(es) {
      LastCoordinatorOverrides(es, LastCoordinator(es, c), c);
    } else {
      LastCoordinatorKeeps(es, c);
      LastCoordinatorKeeps(es, LastCoordinator(es, c));
    }
  }

  /** The merge loop leaves the coordinator id the last coordinator entry gave, or the prior one
      when the list has none. */
  lemma {:induction false} RunCoordinator(b: Bridge, es: seq<InventoryEntry>)
    ensures Run(b, es).Some? ==> Run(b, es).value.coordinatorZigbeeId == LastCoordinator(es, b.coordinatorZigbeeId)
    decreases |es|
  {
    if |es| > 0 && !Faulty(es[0]) {
      RunCoordinator(Step(b, es[0]), es[1..]);
    }
  }

  /** `UpdateDevices` on a well-formed list: without a coordinator entry the id is kept; with one,
      the id no longer depends on what the snapshot held before. */
  lemma UpdateDevicesCoordinator(b: Bridge, b2: Bridge, es: seq<InventoryEntry>)
    requires NoFault(es) && b2 == b.(coordinatorZigbeeId := b2.coordinatorZigbeeId)
    ensures UpdateDevices(b, es).coordinatorZigbeeId == LastCoordinator(es, b.coordinatorZigbeeId)
    ensures !HasCoordinatorEntry(es) ==> UpdateDevices(b, es).coordinatorZigbeeId == b.coordinatorZigbeeId
    ensures HasCoordinatorEntry(es) ==> UpdateDevices(b, es).coordinatorZigbeeId == UpdateDevices(b2, es).coordinatorZigbeeId
  {
    RunCoordinator(b, es);
    RunCoordinator(b2, es);
    if HasCoordinatorEntry(es) {
      LastCoordinatorOverrides(es, b.coordinatorZigbeeId, b2.coordinatorZigbeeId);
    } else {
      LastCoordinatorKeeps(es, b.coordinatorZigbeeId);
    }
  }

  /** The records a list creates when none of its entries matches anything. */
  function CreatedAll(es: seq<InventoryEntry>): (r: seq<Device>)
    ensures |r| == |es|
    ensures forall k :: 0 <= k < |es| ==> r[k] == Created(es[k])
  {
    if |es| == 0 then [] else [Created(es[0])] + CreatedAll(es[1..])
  }

  predicate NoFault(es: seq<InventoryEntry>) {
    forall k :: 0 <= k < |es| ==> !Faulty(es[k])
  }

  /** Entries with pairwise different canonical names and pairwise different (present) ids. */
  predicate Distinct(es: seq<InventoryEntry>) {
    forall k, m :: 0 <= k < |es| && 0 <= m < |es| && k != m ==>
      CanonicalName(es[k]) != CanonicalName(es[m]) && (es[k].ieeeAddr.Some? ==> es[k].ieeeAddr != es[m].ieeeAddr)
  }

  /** No record of `ds` matches any entry of `es`. */
  predicate Unmatched(ds: seq<Device>, es: seq<InventoryEntry>) {
    forall j, k :: 0 <= j < |ds| && 0 <= k < |es| ==> !Matches(ds[j], Target(es[k]))
  }

  /** Every entry already finds a record that merging it would leave as it is. */
  predicate Reflected(ds: seq<Device>, es: seq<InventoryEntry>) {
    forall k :: 0 <= k < |es| ==>
      Find(ds, Target(es[k])).Some? && Apply(ds[Find(ds, Target(es[k])).value], es[k]) == ds[Find(ds, Target(es[k])).value]
  }

  /** A created record matches no entry with another canonical name and another present id. */
  lemma CreatedMisses(e0: InventoryEntry, e: InventoryEntry)
    requires CanonicalName(e0) != CanonicalName(e)
    requires e.ieeeAddr.Some? ==> e.ieeeAddr != e0.ieeeAddr
    ensures !Matches(Created(e0), Target(e))
  {
  }

  /** No entry matches the record another entry of the list creates. */
  predicate Separate(es: seq<InventoryEntry>) {
    forall k, m :: 0 <= k < |es| && 0 <= m < |es| && k != m ==> !Matches(Created(es[k]), Target(es[m]))
  }

  /** Distinct entries are separate. */
  lemma DistinctSeparate(es: seq<InventoryEntry>)
    requires Distinct(es)
    ensures Separate(es)
  {
    forall k, m | 0 <= k < |es| && 0 <= m < |es| && k != m
      ensures !Matches(Created(es[k]), Target(es[m]))
    {
      CreatedMisses(es[k], es[m]);
    }
  }

  /** Dropping the first entry keeps the rest unmatched by the grown list. */
  lemma UnmatchedTail(ds: seq<Device>, es: seq<InventoryEntry>)
    requires |es| > 0 && Separate(es) && Unmatched(ds, es)
    ensures Separate(es[1..]) && Unmatched(ds + [Created(es[0])], es[1..])
  {
    var tail := es[1..];
    var grown := ds + [Created(es[0])];
    forall j, k | 0 <= j < |grown| && 0 <= k < |tail|
      ensures !Matches(grown[j], Target(tail[k]))
    {
      if j < |ds| {
        assert grown[j] == ds[j] && tail[k] == es[k + 1];
      } else {
        assert grown[j] == Created(es[0]) && tail[k] == es[k + 1];
      }
    }
    forall k, m | 0 <= k < |tail| && 0 <= m < |tail| && k != m
      ensures !Matches(Created(tail[k]), Target(tail[m]))
    {
      assert tail[k] == es[k + 1] && tail[m] == es[m + 1];
    }
  }

  lemma Regroup<T>(a: seq<T>, x: T, c: seq<T>)
    ensures (a + [x]) + c == a + ([x] + c)
  {
  }

  /** A list of separate new entries appends one record per entry, in order. */
  lemma {:induction false} FirstPass(b: Bridge, es: seq<InventoryEntry>)
    requires NoFault(es) && Separate(es) && Unmatched(b.devices, es)
    ensures Run(b, es) == Some(b.(devices := b.devices + CreatedAll(es), coordinatorZigbeeId := LastCoordinator(es, b.coordinatorZigbeeId)))
    decreases |es|
  {
    if |es| == 0 {
      assert b.devices + CreatedAll(es) == b.devices;
    } else {
      assert Find(b.devices, Target(es[0])).None?;
      var s := Step(b, es[0]);
      var tail := es[1..];
      UnmatchedTail(b.devices, es);
      assert NoFault(tail) by {
        assert forall k :: 0 <= k < |tail| ==> tail[k] == es[k + 1];
      }
      FirstPass(s, tail);
      var c := if IsCoordinatorEntry(es[0]) then es[0].ieeeAddr else b.coordinatorZigbeeId;
      assert s.coordinatorZigbeeId == c;
      assert LastCoordinator(es, b.coordinatorZigbeeId) == LastCoordinator(tail, c);
      assert s.devices == b.devices + [Created(es[0])];
      assert CreatedAll(es) == [Created(es[0])] + CreatedAll(tail);
      Regroup(b.devices, Created(es[0]), CreatedAll(tail));
      assert Run(b, es) == Run(s, tail);
    }
  }

  /** A list whose entries are all reflected leaves the records alone. */
  lemma {:induction false} SecondPass(t: Bridge, es: seq<InventoryEntry>)
    requires NoFault(es) && Reflected(t.devices, es)
    ensures Run(t, es) == Some(t.(coordinatorZigbeeId := LastCoordinator(es, t.coordinatorZigbeeId)))
    decreases |es|
  {
    if |es| > 0 {
      var s := Step(t, es[0]);
      assert s.devices == t.devices;
      var tail := es[1..];
      assert forall k :: 0 <= k < |tail| ==> tail[k] == es[k + 1];
      SecondPass(s, tail);
    }
  }

  /** After the first pass, every entry finds the record it created. */
  lemma CreatedReflected(ds: seq<Device>, es: seq<InventoryEntry>)
    requires Separate(es) && Unmatched(ds, es)
    ensures Reflected(ds + CreatedAll(es), es)
  {
    forall k | 0 <= k < |es|
      ensures Find(ds + CreatedAll(es), Target(es[k])) == Some(|ds| + k)
    {
      CreatedFoundAt(ds, es, k);
    }
  }

  lemma CreatedFoundAt(ds: seq<Device>, es: seq<InventoryEntry>, k: nat)
    requires Separate(es) && Unmatched(ds, es) && k < |es|
    ensures Find(ds + CreatedAll(es), Target(es[k])) == Some(|ds| + k)
  {
    var key := Target(es[k]);
    var made := CreatedAll(es);
    assert forall j :: 0 <= j < |ds| ==> !Matches(ds[j], key);
    assert forall m :: 0 <= m < k ==> !Matches(made[m], key);
    assert made[k] == Created(es[k]);
    FindAppended(ds, made, key, k);
  }

  /** Merging a list of distinct entries that match no existing record twice is the same as
      merging it once. The restriction matters: see `MergeTwiceDiffers`. */
  lemma DistinctFreshListIdempotent(b: Bridge, es: seq<InventoryEntry>)
    requires Distinct(es) && Unmatched(b.devices, es)
    ensures UpdateDevices(UpdateDevices(b, es), es) == UpdateDevices(b, es)
  {
    if NoFault(es) {
      DistinctSeparate(es);
      FirstPass(b, es);
      var t := UpdateDevices(b, es);
      CreatedReflected(b.devices, es);
      SecondPass(t, es);
      LastCoordinatorAbsorbs(es, b.coordinatorZigbeeId);
    }
  }

  /** An entry with only a name and an id. */
  function Bare(friendlyName: Option<string>, ieeeAddr: Option<string>): InventoryEntry {
    InventoryEntry(friendlyName, ieeeAddr, Absent, Absent, Absent, Absent, Absent, Absent)
  }

  /** Merging a list twice can differ from merging it once: entry "B" with id Y first matches the
      record "A" through its id, then entry "A" without an id clears that id, so the second pass
      no longer matches "B" to anything and appends it. */
  lemma MergeTwiceDiffers()
    ensures var b := DefaultBridge.(devices := [Placeholder("A").(zigbeeId := Some("Y"))]);
            var es := [Bare(Some("B"), Some("Y")), Bare(Some("A"), None)];
            UpdateDevices(UpdateDevices(b, es), es) != UpdateDevices(b, es)
  {
    var b := DefaultBridge.(devices := [Placeholder("A").(zigbeeId := Some("Y"))]);
    var e1, e2 := Bare(Some("B"), Some("Y")), Bare(Some("A"), None);
    var es := [e1, e2];
    assert !HasBlankName(e1) by { assert Some("B").value[0] == 'B'; }
    assert !HasBlankName(e2) by { assert Some("A").value[0] == 'A'; }
    var s1 := Step(b, e1);
    assert Find(b.devices, Target(e1)) == Some(0);
    assert s1 == b;
    var once := Step(s1, e2);
    assert Find(s1.devices, Target(e2)) == Some(0);
    assert once.devices == [Placeholder("A")];
    RunTwo(b, e1, e2);
    var s2 := Step(once, e1);
    assert Find(once.devices, Target(e1)) == None;
    assert |s2.devices| == 2;
    RunTwo(once, e1, e2);
  }

  /** A two-entry list is its two steps in order. */
  lemma RunTwo(b: Bridge, e1: InventoryEntry, e2: InventoryEntry)
    requires !Faulty(e1) && !Faulty(e2)
    ensures Run(b, [e1, e2]) == Some(Step(Step(b, e1), e2))
  {
    assert [e1, e2][0] == e1 && [e1, e2][1..] == [e2];
    assert Run(b, [e1, e2]) == Run(Step(b, e1), [e2]);
    assert [e2][1..] == [];
    assert Run(Step(b, e1), [e2]) == Run(Step(Step(b, e1), e2), []);
  }

  /** The coordinator id is taken only from a blank-named entry: an entry literally named
      "Coordinator" becomes an ordinary record and leaves the id unset. */
  lemma NamedCoordinatorIsOrdinary()
    ensures var e := InventoryEntry(Some("Coordinator"), Some("0x00"), Present("Coordinator"), Absent, Absent, Absent, Absent, Absent);
            var r := UpdateDevices(DefaultBridge, [e]);
            r.coordinatorZigbeeId.None? && r.devices == [Created(e)]
  {
    var e := InventoryEntry(Some("Coordinator"), Some("0x00"), Present("Coordinator"), Absent, Absent, Absent, Absent, Absent);
    assert !HasBlankName(e) by { assert Some("Coordinator").value[0] == 'C'; }
    assert Run(DefaultBridge, [e]) == Run(Step(DefaultBridge, e), []);
  }

  /** A blank-named entry sets the coordinator id exactly when its type is "Coordinator" in any
      letter case, whatever the snapshot; when it matches no record it is stored as
      "Coordinator". */
  lemma BlankCoordinatorSetsId(b: Bridge, e: InventoryEntry)
    requires HasBlankName(e) && !Faulty(e)
    ensures var r := UpdateDevices(b, [e]);
      && (e.deviceType.Present? && EqualsIgnoreCase(e.deviceType.value, "Coordinator") ==> r.coordinatorZigbeeId == e.ieeeAddr)
      && (!(e.deviceType.Present? && EqualsIgnoreCase(e.deviceType.value, "Coordinator")) ==> r.coordinatorZigbeeId == b.coordinatorZigbeeId)
      && (Find(b.devices, Target(e)).None? ==> r.devices == b.devices + [Created(e)] && Created(e).friendlyName == "Coordinator")
  {
    assert [e][0] == e && [e][1..] == [];
    assert Run(b, [e]) == Run(Step(b, e), []);
  }

  /** The type is compared without regard to letter case. */
  lemma CoordinatorTypeAnyCase()
    ensures EqualsIgnoreCase("coordinator", "Coordinator") && EqualsIgnoreCase("COORDINATOR", "Coordinator")
    ensures !EqualsIgnoreCase("Router", "Coordinator")
  {
  }

  /** The entry's `model` lands in the record's `ModelId` and its `modelid` in `Model`. */
  lemma ModelFieldsSwapped(d: Device)
    ensures var e := Bare(Some("A"), None).(modelId := Present("m"), model := Present("x"));
            Apply(d, e).model == Some("m") && Apply(d, e).modelId == Some("x")
  {
    assert !IsWhiteSpace('m') && !IsNul('m');
    assert !IsWhiteSpace('x') && !IsNul('x');
    CleanPlain("m");
    CleanPlain("x");
  }
}
