/** `UpdateNetworkMap`: folding the bridge's network map (`<base>/bridge/networkmap/raw`) into
    the snapshot. Nodes set availability, links set parent link qualities; records are never
    added, removed or re-keyed. */
module NetworkMap {
  import opened Wrappers
  import opened Text
  import opened Devices

  /** A `nodes` element: its Zigbee id and its `status`. */
  datatype Node = Node(ieeeAddr: Option<string>, status: JsonField<string>)

  /** A `links` element: child (`sourceIeeeAddr`), parent (`targetIeeeAddr`) and link quality. */
  datatype Link = Link(source: Option<string>, target: Option<string>, lqi: JsonField<int>)

  /** The payload; a missing or non-array `nodes` / `links` is `None`. */
  datatype MapPayload = MapPayload(nodes: Option<seq<Node>>, links: Option<seq<Link>>)

  const UShortLimit: int := 0x1_0000

  /** The record a non-blank Zigbee id designates: the first one carrying that id. */
  function Located(ds: seq<Device>, id: Option<string>): (r: Option<nat>)
    ensures r.Some? ==> !IsNullOrWhiteSpace(id) && r.value < |ds| && ds[r.value].zigbeeId == id
  {
    if IsNullOrWhiteSpace(id) then None else Find(ds, ById(id.value))
  }

  /** `status` read as `?.Value<string>().Equals("online")` for a located node. */
  predicate NodeFaults(ds: seq<Device>, n: Node) {
    Located(ds, n.ieeeAddr).Some? && n.status.JsonNull?
  }

  /** `lqi` read as `?.Value<ushort>()`: a JSON null or an out-of-range number throws. */
  predicate LqiFaults(f: JsonField<int>) {
    f.JsonNull? || (f.Present? && !(0 <= f.value < UShortLimit))
  }

  /** The link quality is read only once the source has been located. */
  predicate LinkFaults(ds: seq<Device>, l: Link) {
    Located(ds, l.source).Some? && LqiFaults(l.lqi)
  }

  /** Availability from a node status that does not throw: missing gives unknown. */
  function Availability(status: JsonField<string>): (r: Option<bool>)
    requires !status.JsonNull?
    ensures r.Some? <==> status.Present?
    ensures r == Some(true) <==> status == Present("online")
  {
    if status.Present? then Some(status.value == "online") else None
  }

  /** `after` differs from `before` at most in availability and parent lists, record by record. */
  predicate Reshaped(before: Bridge, after: Bridge) {
    && after.(devices := before.devices) == before
    && |after.devices| == |before.devices|
    && forall j :: 0 <= j < |before.devices| ==>
         after.devices[j] == before.devices[j].(isAvailable := after.devices[j].isAvailable, parents := after.devices[j].parents)
  }

  lemma ReshapedTransitive(a: Bridge, b: Bridge, c: Bridge)
    requires Reshaped(a, b) && Reshaped(b, c)
    ensures Reshaped(a, c)
  {
    forall j | 0 <= j < |a.devices|
      ensures c.devices[j] == a.devices[j].(isAvailable := c.devices[j].isAvailable, parents := c.devices[j].parents)
    {
      assert b.devices[j] == a.devices[j].(isAvailable := b.devices[j].isAvailable, parents := b.devices[j].parents);
    }
  }

  /** Lookups by id only see ids, so they agree on lists with the same ids. */
  lemma {:induction false} FindByIdStable(ds: seq<Device>, es: seq<Device>, id: string)
    requires |ds| == |es| && forall j :: 0 <= j < |ds| ==> ds[j].zigbeeId == es[j].zigbeeId
    ensures Find(ds, ById(id)) == Find(es, ById(id))
  {
    if |ds| > 0 {
      FindByIdStable(ds[1..], es[1..], id);
    }
  }

  lemma LocatedStable(a: Bridge, b: Bridge)
    requires Reshaped(a, b)
    ensures forall id :: Located(a.devices, id) == Located(b.devices, id)
  {
    forall id: Option<string> | !IsNullOrWhiteSpace(id)
      ensures Find(a.devices, ById(id.value)) == Find(b.devices, ById(id.value))
    {
      forall j | 0 <= j < |a.devices| ensures a.devices[j].zigbeeId == b.devices[j].zigbeeId {
        assert b.devices[j] == a.devices[j].(isAvailable := b.devices[j].isAvailable, parents := b.devices[j].parents);
      }
      FindByIdStable(a.devices, b.devices, id.value);
    }
  }

  /** No two parent entries name the same parent. */
  predicate UniqueTargets(ps: seq<ParentLink>) {
    forall j, k :: 0 <= j < k < |ps| ==> ps[j].zigbeeId != ps[k].zigbeeId
  }

  /** Records the quality of the link to `target`: the existing entry for that parent is replaced,
      or a new entry is appended. */
  function Relink(ps: seq<ParentLink>, target: string, quality: UShort): (r: seq<ParentLink>)
    ensures FindParent(ps, target).Some? ==> r == ps[FindParent(ps, target).value := ParentLink(target, quality)]
    ensures FindParent(ps, target).None? ==> r == ps + [ParentLink(target, quality)]
    ensures FindParent(r, target).Some? && r[FindParent(r, target).value].linkQuality == quality
    ensures forall p :: p in ps && p.zigbeeId != target ==> p in r
    ensures UniqueTargets(ps) ==> UniqueTargets(r)
  {
    match FindParent(ps, target)
    case Some(p) =>
      ReplaceFirstAt(ps, p, ParentLink(target, quality));
      var r := ReplaceFirst(ps, ps[p], ParentLink(target, quality));
      assert forall q :: q in ps && q.zigbeeId != target ==> q in r by {
        forall q | q in ps && q.zigbeeId != target ensures q in r {
          var j :| 0 <= j < |ps| && ps[j] == q;
          assert r[j] == q;
        }
      }
      FindParentAt(r, target, p);
      r
    case None =>
      var r := ps + [ParentLink(target, quality)];
      FindParentAt(r, target, |ps|);
      r
  }

  /** Sets the availability of the record at `i`, found by its id. */
  function SetAvailability(b: Bridge, i: nat, available: Option<bool>): (r: Bridge)
    requires KeyedAt(b.devices, i)
    ensures r.devices == b.devices[i := b.devices[i].(isAvailable := available)]
    ensures Reshaped(b, r)
    ensures forall j :: 0 <= j < |b.devices| ==> r.devices[j].parents == b.devices[j].parents
  {
    var d := b.devices[i];
    var nd := d.(isAvailable := available);
    if d != nd then b.(devices := ReplaceKeyed(b.devices, i, nd)) else b
  }

  /** Records the link quality to `target` in the parent list of the record at `i`. */
  function SetParentLink(b: Bridge, i: nat, target: string, quality: UShort): (r: Bridge)
    requires KeyedAt(b.devices, i)
    ensures r.devices == b.devices[i := b.devices[i].(parents := Relink(b.devices[i].parents, target, quality))]
    ensures Reshaped(b, r)
    ensures forall j :: 0 <= j < |b.devices| ==> r.devices[j].isAvailable == b.devices[j].isAvailable
    ensures ParentsUnique(b) ==> ParentsUnique(r)
  {
    var d := b.devices[i];
    var nd := d.(parents := Relink(d.parents, target, quality));
    if d != nd then b.(devices := ReplaceKeyed(b.devices, i, nd)) else b
  }

  /** One node. Throws (`None`) only for a located node with a JSON-null status. */
  function NodeStep(b: Bridge, n: Node): (r: Option<Bridge>)
    ensures r.None? <==> NodeFaults(b.devices, n)
    ensures r.Some? ==> Reshaped(b, r.value)
    ensures r.Some? ==> forall j :: 0 <= j < |b.devices| ==> r.value.devices[j].parents == b.devices[j].parents
    ensures Located(b.devices, n.ieeeAddr).None? ==> r == Some(b)
    ensures r.Some? && Located(b.devices, n.ieeeAddr).Some? ==>
      var i := Located(b.devices, n.ieeeAddr).value;
      r.value.devices == b.devices[i := b.devices[i].(isAvailable := Availability(n.status))]
  {
    match Located(b.devices, n.ieeeAddr)
    case None => Some(b)
    case Some(i) =>
      if n.status.JsonNull? then None
      else
        FoundIsKeyed(b.devices, ById(n.ieeeAddr.value));
        Some(SetAvailability(b, i, Availability(n.status)))
  }

  /** One link. Throws only for a located source with a bad `lqi`; skipped when the parent id
      is blank or `lqi` is missing. */
  function LinkStep(b: Bridge, l: Link): (r: Option<Bridge>)
    ensures r.None? <==> LinkFaults(b.devices, l)
    ensures r.Some? ==> Reshaped(b, r.value)
    ensures r.Some? ==> forall j :: 0 <= j < |b.devices| ==> r.value.devices[j].isAvailable == b.devices[j].isAvailable
    ensures r.Some? && ParentsUnique(b) ==> ParentsUnique(r.value)
    ensures Located(b.devices, l.source).None? || IsNullOrWhiteSpace(l.target) || l.lqi.Absent? ==> r == Some(b) || r.None?
    ensures r.Some? && Located(b.devices, l.source).Some? && !IsNullOrWhiteSpace(l.target) && l.lqi.Present? ==>
      var i := Located(b.devices, l.source).value;
      r.value.devices == b.devices[i := b.devices[i].(parents := Relink(b.devices[i].parents, l.target.value, l.lqi.value))]
  {
    match Located(b.devices, l.source)
    case None => Some(b)
    case Some(i) =>
      if LqiFaults(l.lqi) then None
      else if IsNullOrWhiteSpace(l.target) || l.lqi.Absent? then Some(b)
      else
        FoundIsKeyed(b.devices, ById(l.source.value));
        Some(SetParentLink(b, i, l.target.value, l.lqi.value))
  }

  /** Every record's parent list names each parent at most once. */
  predicate ParentsUnique(b: Bridge) {
    forall j :: 0 <= j < |b.devices| ==> UniqueTargets(b.devices[j].parents)
  }

  /** The `nodes` loop: `None` as soon as a node throws. Which node throws depends only on the ids,
      which the loop never changes, so it is decided by the starting snapshot. */
  function RunNodes(b: Bridge, ns: seq<Node>): (r: Option<Bridge>)
    ensures r.None? <==> exists k :: 0 <= k < |ns| && NodeFaults(b.devices, ns[k])
    ensures r.Some? ==> Reshaped(b, r.value)
    ensures r.Some? ==> forall j :: 0 <= j < |b.devices| ==> r.value.devices[j].parents == b.devices[j].parents
    decreases |ns|
  {
    if |ns| == 0 then Some(b)
    else match NodeStep(b, ns[0])
      case None => None
      case Some(s) =>
        LocatedStable(b, s);
        var r := RunNodes(s, ns[1..]);
        assert forall k :: 1 <= k < |ns| ==> ns[1..][k - 1] == ns[k];
        if r.Some? then ReshapedTransitive(b, s, r.value); r else r
  }

  /** The `links` loop, with the same all-or-nothing outcome. */
  function RunLinks(b: Bridge, ls: seq<Link>): (r: Option<Bridge>)
    ensures r.None? <==> exists k :: 0 <= k < |ls| && LinkFaults(b.devices, ls[k])
    ensures r.Some? ==> Reshaped(b, r.value)
    ensures r.Some? ==> forall j :: 0 <= j < |b.devices| ==> r.value.devices[j].isAvailable == b.devices[j].isAvailable
    ensures r.Some? && ParentsUnique(b) ==> ParentsUnique(r.value)
    decreases |ls|
  {
    if |ls| == 0 then Some(b)
    else match LinkStep(b, ls[0])
      case None => None
      case Some(s) =>
        LocatedStable(b, s);
        var r := RunLinks(s, ls[1..]);
        assert forall k :: 1 <= k < |ls| ==> ls[1..][k - 1] == ls[k];
        if r.Some? then ReshapedTransitive(b, s, r.value); r else r
  }

  /** Nodes first, then links, in one update; a throw anywhere discards both. */
  function Process(b: Bridge, m: MapPayload): (r: Option<Bridge>)
  {
    var afterNodes := if m.nodes.None? then Some(b) else RunNodes(b, m.nodes.value);
    if afterNodes.None? || m.links.None? then afterNodes
    else RunLinks(afterNodes.value, m.links.value)
  }

  /** A node or link that throws, judged against the starting snapshot. */
  predicate MapFaults(ds: seq<Device>, m: MapPayload) {
    || (m.nodes.Some? && exists k :: 0 <= k < |m.nodes.value| && NodeFaults(ds, m.nodes.value[k]))
    || (m.links.Some? && exists k :: 0 <= k < |m.links.value| && LinkFaults(ds, m.links.value[k]))
  }

  /** The combined run throws exactly when some node or link throws against the starting snapshot. */
  lemma ProcessOutcome(b: Bridge, m: MapPayload)
    ensures Process(b, m).None? <==> MapFaults(b.devices, m)
    ensures Process(b, m).Some? ==> Reshaped(b, Process(b, m).value)
    ensures Process(b, m).Some? && ParentsUnique(b) ==> ParentsUnique(Process(b, m).value)
  {
    if m.nodes.Some? {
      var afterNodes := RunNodes(b, m.nodes.value);
      if afterNodes.Some? {
        LocatedStable(b, afterNodes.value);
        if m.links.Some? {
          var r := RunLinks(afterNodes.value, m.links.value);
          assert forall k :: 0 <= k < |m.links.value| ==>
            LinkFaults(b.devices, m.links.value[k]) == LinkFaults(afterNodes.value.devices, m.links.value[k]);
          if r.Some? {
            ReshapedTransitive(b, afterNodes.value, r.value);
          }
        }
      }
    }
  }

  /** `UpdateNetworkMap`. The result keeps every record in place with its name, id and all other
      fields; only availability and parent lists change, parents stay one entry per parent id,
      and a malformed node or link leaves the snapshot untouched. */
  function UpdateNetworkMap(b: Bridge, m: MapPayload): (r: Bridge)
    ensures MapFaults(b.devices, m) ==> r == b
    ensures Reshaped(b, r)
    ensures ParentsUnique(b) ==> ParentsUnique(r)
  {
    ProcessOutcome(b, m);
    Process(b, m).GetOr(b)
  }

  /** Recording the same link quality twice is recording it once. */
  lemma RelinkIdempotent(ps: seq<ParentLink>, target: string, quality: UShort)
    ensures Relink(Relink(ps, target, quality), target, quality) == Relink(ps, target, quality)
  {
    var r := Relink(ps, target, quality);
    var p := FindParent(r, target).value;
    assert r[p] == ParentLink(target, quality);
    assert r[p := ParentLink(target, quality)] == r;
  }

  /** Applying the same node twice is applying it once. */
  lemma NodeStepIdempotent(b: Bridge, n: Node)
    requires NodeStep(b, n).Some?
    ensures NodeStep(NodeStep(b, n).value, n) == NodeStep(b, n)
  {
    var s := NodeStep(b, n).value;
    LocatedStable(b, s);
    if Located(b.devices, n.ieeeAddr).Some? {
      var i := Located(b.devices, n.ieeeAddr).value;
      assert s.devices[i := s.devices[i].(isAvailable := Availability(n.status))] == s.devices;
    }
  }

  /** Applying the same link twice is applying it once. */
  lemma LinkStepIdempotent(b: Bridge, l: Link)
    requires LinkStep(b, l).Some?
    ensures LinkStep(LinkStep(b, l).value, l) == LinkStep(b, l)
  {
    var s := LinkStep(b, l).value;
    LocatedStable(b, s);
    if Located(b.devices, l.source).Some? && !IsNullOrWhiteSpace(l.target) && l.lqi.Present? {
      var i := Located(b.devices, l.source).value;
      RelinkIdempotent(b.devices[i].parents, l.target.value, l.lqi.value);
      assert s.devices[i := s.devices[i].(parents := Relink(s.devices[i].parents, l.target.value, l.lqi.value))] == s.devices;
    }
  }
}
