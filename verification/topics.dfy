/** The three topic patterns built by `BuildRegexes`, written as string predicates, and the
    dispatch order of `HandleApplicationMessageReceivedAsync`. The patterns are compiled
    single-line, so `.` and `[^/]` also match a line feed, and `$` matches at the very end or
    just before a final line feed. */
module Topics {
  import opened Wrappers
  import opened Text

  /** The two configured prefixes: the zigbee2mqtt base topic and the Home Assistant discovery topic. */
  datatype Settings = Settings(baseTopic: string, discoveryTopic: string)

  function Prefix(s: Settings): string {
    s.baseTopic + "/"
  }

  function DiscoveryPrefix(s: Settings): string {
    s.discoveryTopic + "/"
  }

  /** What `$` accepts after the last consumed character. */
  predicate AtEnd(rest: string) {
    rest == "" || rest == "\n"
  }

  /** Topics the service itself publishes and drops when they come back. */
  const IgnoredSuffixes: seq<string> := [
    "/bridge/config/devices/get",
    "/bridge/config/permit_join",
    "/bridge/config/rename",
    "/bridge/config/log_level",
    "/bridge/networkmap"]

  predicate IsIgnoredTopic(topic: string) {
    exists i :: 0 <= i < |IgnoredSuffixes| && EndsWith(topic, IgnoredSuffixes[i])
  }

  /** `r` is a non-empty '/'-free name, then "/set", then `end`. */
  predicate SetTail(r: string, end: string) {
    var cut := |r| - 4 - |end|;
    cut >= 1 && r[cut..] == "/set" + end && '/' !in r[..cut]
  }

  /** The `<base>/<name>/set` pattern: one '/'-free name segment. */
  predicate IsSetEcho(s: Settings, topic: string) {
    StartsWith(topic, Prefix(s)) && (SetTail(topic[|Prefix(s)|..], "") || SetTail(topic[|Prefix(s)|..], "\n"))
  }

  /** A device's command topic is a set echo. */
  lemma SetTopicIsEcho(s: Settings, name: string)
    requires |name| > 0 && '/' !in name
    ensures IsSetEcho(s, Prefix(s) + name + "/set")
  {
    var t := Prefix(s) + name + "/set";
    assert t[|Prefix(s)|..] == name + "/set";
  }

  /** A command topic under a multi-segment name is not a set echo. */
  lemma MultiSegmentSetIsNoEcho(s: Settings, first: string, second: string)
    ensures !IsSetEcho(s, Prefix(s) + first + "/" + second + "/set")
  {
    var t := Prefix(s) + first + "/" + second + "/set";
    var r := t[|Prefix(s)|..];
    assert r == first + "/" + second + "/set";
    assert r[|first|] == '/';
    assert r[|r| - 1] == 't';
  }

  /** The groups of a discovery-pattern match. */
  datatype DiscoveryMatch = DiscoveryMatch(entityClass: string, deviceId: string, component: string, hasConfig: bool)

  /** What may follow the third segment's '/': an optional "config", then the end. */
  predicate DiscoveryTail(t: string) {
    t == "" || t == "\n" || t == "config" || t == "config\n"
  }

  /** The `<discovery>/<class>/<deviceId>/<component>/config?` pattern. */
  function MatchDiscovery(s: Settings, topic: string): (r: Option<DiscoveryMatch>)
    ensures r.Some? ==> StartsWith(topic, DiscoveryPrefix(s))
    ensures r.Some? ==> r.value.entityClass != "" && '/' !in r.value.entityClass
    ensures r.Some? ==> r.value.deviceId != "" && '/' !in r.value.deviceId
    ensures r.Some? ==> r.value.component != "" && '/' !in r.value.component
  {
    if !StartsWith(topic, DiscoveryPrefix(s)) then None
    else
      var parts := Split(topic[|DiscoveryPrefix(s)|..], '/');
      if |parts| == 4 && parts[0] != "" && parts[1] != "" && parts[2] != "" && DiscoveryTail(parts[3])
      then Some(DiscoveryMatch(parts[0], parts[1], parts[2], parts[3] == "config" || parts[3] == "config\n"))
      else None
  }

  /** The topic a discovery match describes, with `tail` after the third segment. */
  function DiscoveryTopic(s: Settings, entityClass: string, deviceId: string, component: string, tail: string): string {
    DiscoveryPrefix(s) + entityClass + "/" + deviceId + "/" + component + "/" + tail
  }

  /** A discovery topic is its prefix, then the four '/'-separated pieces. */
  lemma DiscoveryTopicShape(s: Settings, entityClass: string, deviceId: string, component: string, tail: string)
    ensures DiscoveryTopic(s, entityClass, deviceId, component, tail)
         == DiscoveryPrefix(s) + (entityClass + ['/'] + (deviceId + ['/'] + (component + ['/'] + tail)))
  {
  }

  /** Building a discovery topic and matching it gives back its segments. */
  lemma DiscoveryRoundTrip(s: Settings, entityClass: string, deviceId: string, component: string, tail: string)
    requires entityClass != "" && '/' !in entityClass
    requires deviceId != "" && '/' !in deviceId
    requires component != "" && '/' !in component
    requires DiscoveryTail(tail)
    ensures MatchDiscovery(s, DiscoveryTopic(s, entityClass, deviceId, component, tail))
         == Some(DiscoveryMatch(entityClass, deviceId, component, tail == "config" || tail == "config\n"))
  {
    var x2 := component + ['/'] + tail;
    var x1 := deviceId + ['/'] + x2;
    var r := entityClass + ['/'] + x1;
    DiscoveryTopicShape(s, entityClass, deviceId, component, tail);
    var t := DiscoveryPrefix(s) + r;
    assert t[|DiscoveryPrefix(s)|..] == r;
    assert '/' !in tail;
    SplitWhole(tail, '/');
    SplitCons(component, '/', tail);
    SplitCons(deviceId, '/', x2);
    SplitCons(entityClass, '/', x1);
    assert Split(r, '/') == [entityClass, deviceId, component, tail];
  }

  /** Every discovery match comes from the topic its segments build. */
  lemma DiscoveryMatchSound(s: Settings, topic: string)
    requires MatchDiscovery(s, topic).Some?
    ensures var m := MatchDiscovery(s, topic).value;
      exists tail :: DiscoveryTail(tail) && (m.hasConfig <==> tail == "config" || tail == "config\n")
        && topic == DiscoveryTopic(s, m.entityClass, m.deviceId, m.component, tail)
  {
    var r := topic[|DiscoveryPrefix(s)|..];
    var parts := Split(r, '/');
    JoinSplit(r, '/');
    var p1, p2, p3 := parts[1..], parts[2..], parts[3..];
    assert p3 == [parts[3]] && p2[1..] == p3 && p1[1..] == p2;
    assert Join(p2, '/') == parts[2] + ['/'] + parts[3];
    assert Join(p1, '/') == parts[1] + ['/'] + Join(p2, '/');
    assert r == parts[0] + ['/'] + Join(p1, '/');
    assert topic == DiscoveryPrefix(s) + r;
    DiscoveryTopicShape(s, parts[0], parts[1], parts[2], parts[3]);
  }

  /** The optional `state` group of the friendly-name pattern. */
  datatype Suffix = AvailabilitySuffix | StateSuffix | ConfigSuffix | ConfigDevicesSuffix

  function SuffixText(x: Suffix): string {
    match x
    case AvailabilitySuffix => "availability"
    case StateSuffix => "state"
    case ConfigSuffix => "config"
    case ConfigDevicesSuffix => "config/devices"
  }

  /** `rest` is '/', the suffix, then the end. */
  predicate SuffixRest(rest: string, x: Suffix) {
    rest == "/" + SuffixText(x) || rest == "/" + SuffixText(x) + "\n"
  }

  /** At most one suffix fits a given text. */
  lemma SuffixRestUnique(rest: string, x: Suffix, y: Suffix)
    requires SuffixRest(rest, x) && SuffixRest(rest, y)
    ensures x == y
  {
    var tx, ty := SuffixText(x), SuffixText(y);
    assert rest[1] == tx[0] && rest[1] == ty[0];
    assert |tx| + 1 <= |rest| <= |tx| + 2 && |ty| + 1 <= |rest| <= |ty| + 2;
  }

  /** How the text after a candidate name completes the pattern: with a suffix, with nothing, or
      not at all. The group is tried before it is skipped, and no text completes both ways. */
  function TailMatch(rest: string): (r: Option<Option<Suffix>>)
    ensures r == Some(None) <==> AtEnd(rest)
    ensures forall x :: r == Some(Some(x)) <==> SuffixRest(rest, x)
  {
    forall x, y | SuffixRest(rest, x) && SuffixRest(rest, y) ensures x == y {
      SuffixRestUnique(rest, x, y);
    }
    if SuffixRest(rest, AvailabilitySuffix) then Some(Some(AvailabilitySuffix))
    else if SuffixRest(rest, StateSuffix) then Some(Some(StateSuffix))
    else if SuffixRest(rest, ConfigSuffix) then Some(Some(ConfigSuffix))
    else if SuffixRest(rest, ConfigDevicesSuffix) then Some(Some(ConfigDevicesSuffix))
    else if AtEnd(rest) then Some(None)
    else None
  }

  /** The `name` and `state` groups of a friendly-name match. */
  datatype NameMatch = NameMatch(name: string, suffix: Option<Suffix>)

  /** The lazy `.+?`: the shortest name, from `n` characters on, after which the pattern completes. */
  function LazyName(r: string, n: nat): (m: NameMatch)
    requires 1 <= n <= |r|
    ensures n <= |m.name| <= |r| && m.name == r[..|m.name|]
    ensures TailMatch(r[|m.name|..]) == Some(m.suffix)
    ensures forall k :: n <= k < |m.name| ==> TailMatch(r[k..]).None?
    decreases |r| - n
  {
    match TailMatch(r[n..])
    case Some(x) => NameMatch(r[..n], x)
    case None =>
      if n == |r| then assert AtEnd(r[n..]); NameMatch(r, None)
      else LazyName(r, n + 1)
  }

  /** The `<base>/<name>(/<suffix>)?` pattern. It matches every topic with a non-empty remainder
      after the prefix, and the name it yields is the shortest one that completes the pattern. */
  function MatchFriendlyName(s: Settings, topic: string): (r: Option<NameMatch>)
    ensures r.Some? <==> StartsWith(topic, Prefix(s)) && |topic| > |Prefix(s)|
    ensures r.Some? ==> var rest := topic[|Prefix(s)|..];
      && 1 <= |r.value.name| <= |rest| && r.value.name == rest[..|r.value.name|]
      && TailMatch(rest[|r.value.name|..]) == Some(r.value.suffix)
      && forall k :: 1 <= k < |r.value.name| ==> TailMatch(rest[k..]).None?
  {
    if StartsWith(topic, Prefix(s)) && |topic| > |Prefix(s)| then
      Some(LazyName(topic[|Prefix(s)|..], 1))
    else None
  }

  /** The friendly name the pattern extracts, or null (`FriendlyNameFromTopic`). */
  function FriendlyNameOf(s: Settings, topic: string): Option<string> {
    match MatchFriendlyName(s, topic)
    case Some(m) => Some(m.name)
    case None => None
  }

  /** A name without '/' or line feed, the shape of an ordinary friendly name. */
  predicate PlainName(name: string) {
    |name| >= 1 && '/' !in name && '\n' !in name
  }

  /** No proper suffix of a plain name (plus anything) completes the pattern. */
  lemma NoEarlierCut(name: string, more: string, k: nat)
    requires PlainName(name) && 1 <= k < |name|
    ensures TailMatch((name + more)[k..]).None?
  {
    var rest := (name + more)[k..];
    assert rest[0] == name[k];
    assert rest[0] != '/' && rest[0] != '\n';
  }

  /** A plain name's telemetry topic yields the name and no suffix. */
  lemma NameRoundTrip(s: Settings, name: string)
    requires PlainName(name)
    ensures MatchFriendlyName(s, Prefix(s) + name) == Some(NameMatch(name, None))
  {
    var t := Prefix(s) + name;
    var r := t[|Prefix(s)|..];
    assert r == name;
    forall k | 1 <= k < |name| ensures TailMatch(r[k..]).None? {
      NoEarlierCut(name, "", k);
      assert name + "" == name;
    }
    LazyNameIs(r, |name|, None);
    assert r[..|name|] == name;
  }

  /** A plain name followed by a suffix yields the name and that suffix. */
  lemma SuffixRoundTrip(s: Settings, name: string, x: Suffix)
    requires PlainName(name)
    ensures MatchFriendlyName(s, Prefix(s) + name + "/" + SuffixText(x)) == Some(NameMatch(name, Some(x)))
  {
    var more := "/" + SuffixText(x);
    var t := Prefix(s) + name + more;
    assert Prefix(s) + name + "/" + SuffixText(x) == t;
    var r := t[|Prefix(s)|..];
    assert r == name + more;
    forall k | 1 <= k < |name| ensures TailMatch(r[k..]).None? {
      NoEarlierCut(name, more, k);
    }
    assert r[|name|..] == more;
    LazyNameIs(r, |name|, Some(x));
    assert r[..|name|] == name;
  }

  /** The lazy search stops at the first completing cut. */
  lemma LazyNameIs(r: string, cut: nat, x: Option<Suffix>)
    requires 1 <= cut <= |r|
    requires TailMatch(r[cut..]) == Some(x)
    requires forall k :: 1 <= k < cut ==> TailMatch(r[k..]).None?
    ensures LazyName(r, 1) == NameMatch(r[..cut], x)
  {
    var m := LazyName(r, 1);
    assert TailMatch(r[|m.name|..]).Some? && TailMatch(r[cut..]).Some?;
    assert |m.name| == cut;
  }

  /** A friendly name that itself ends in '/' and a suffix word is cut short: the device
      "lamp/state" is read as the device "lamp" reporting its state. */
  lemma SlashedNameIsCut(s: Settings, name: string, x: Suffix)
    requires PlainName(name)
    ensures FriendlyNameOf(s, Prefix(s) + (name + "/" + SuffixText(x))) == Some(name)
    ensures name != name + "/" + SuffixText(x)
  {
    assert Prefix(s) + (name + "/" + SuffixText(x)) == Prefix(s) + name + "/" + SuffixText(x);
    SuffixRoundTrip(s, name, x);
  }

  /** Where `HandleApplicationMessageReceivedAsync` sends a message. */
  datatype Route =
    | Ignored                                                      // an echo of the service's own commands
    | EntityConfig(entityClass: string, deviceId: string, component: string, payload: string)
    | DiscoveryConsumed                                            // a discovery topic without config or payload
    | DeviceList(payload: string)                                  // `<base>/bridge/config/devices`
    | NetworkMapRaw(payload: string)                               // `<base>/bridge/networkmap/raw`
    | NullPayloadFault                                             // either of those two with no payload: decoding throws
    | BridgeLog(payload: string)                                   // `<base>/bridge/log`
    | BridgeOnline(online: bool)                                   // `<base>/bridge/state`
    | BridgeConfig(payload: string)                                // `<base>/bridge/config`
    | BridgeConsumed                                               // another bridge suffix: consumed, no action
    | DeviceAvailability(friendlyName: string, online: bool)
    | DeviceTelemetry(friendlyName: string, payload: string)
    | DeviceConsumed                                               // a device topic without payload
    | Unqualified                                                  // no dispatcher took it: logged as a warning

  /** True for the routes that change the snapshot or a waiting list. */
  predicate Acts(r: Route) {
    r.EntityConfig? || r.DeviceList? || r.NetworkMapRaw? || r.BridgeLog? || r.BridgeOnline?
      || r.BridgeConfig? || r.DeviceAvailability? || r.DeviceTelemetry?
  }

  /** `HandleApplicationMessageReceivedAsync` with its dispatchers in order: ignore list, set
      echo, discovery, the device-list and network-map topics, the log topic, the friendly-name
      pattern. `payload` is `None` for a message without payload. */
  function Classify(s: Settings, topic: string, payload: Option<string>): (r: Route)
    ensures IsIgnoredTopic(topic) || IsSetEcho(s, topic) <==> r == Ignored
    ensures payload.None? ==> !Acts(r)
    ensures r.EntityConfig? ==> MatchDiscovery(s, topic) == Some(DiscoveryMatch(r.entityClass, r.deviceId, r.component, true))
    ensures r.DeviceAvailability? || r.DeviceTelemetry? ==>
      FriendlyNameOf(s, topic) == Some(r.friendlyName) && r.friendlyName != "bridge" && MatchDiscovery(s, topic).None?
    ensures r.DeviceAvailability? <==> (
      && payload.Some? && !(IsIgnoredTopic(topic) || IsSetEcho(s, topic)) && MatchDiscovery(s, topic).None?
      && topic != s.baseTopic + "/bridge/config/devices" && topic != s.baseTopic + "/bridge/networkmap/raw"
      && topic != s.baseTopic + "/bridge/log"
      && MatchFriendlyName(s, topic).Some? && MatchFriendlyName(s, topic).value.name != "bridge"
      && MatchFriendlyName(s, topic).value.suffix.Some?)
  {
    if IsIgnoredTopic(topic) || IsSetEcho(s, topic) then Ignored
    else match MatchDiscovery(s, topic)
      case Some(m) =>
        if m.hasConfig && payload.Some? then EntityConfig(m.entityClass, m.deviceId, m.component, payload.value)
        else DiscoveryConsumed
      case None =>
        if topic == s.baseTopic + "/bridge/config/devices" then
          if payload.Some? then DeviceList(payload.value) else NullPayloadFault
        else if topic == s.baseTopic + "/bridge/networkmap/raw" then
          if payload.Some? then NetworkMapRaw(payload.value) else NullPayloadFault
        else if topic == s.baseTopic + "/bridge/log" && payload.Some? then BridgeLog(payload.value)
        else match MatchFriendlyName(s, topic)
          case None => Unqualified
          case Some(m) => DispatchFriendlyName(m, payload)
  }

  /** The friendly-name dispatcher: the name "bridge" goes to the bridge handler, which needs a
      suffix and a payload; any other name is an availability report when a suffix is present and
      a telemetry message otherwise. */
  function DispatchFriendlyName(m: NameMatch, payload: Option<string>): (r: Route)
    ensures payload.None? ==> r == (if m.name == "bridge" then Unqualified else DeviceConsumed)
    ensures r.DeviceAvailability? <==> m.name != "bridge" && payload.Some? && m.suffix.Some?
    ensures r.DeviceTelemetry? <==> m.name != "bridge" && payload.Some? && m.suffix.None?
    ensures r.DeviceAvailability? || r.DeviceTelemetry? ==> r.friendlyName == m.name
    ensures r.DeviceAvailability? ==> (r.online <==> payload.value == "online")
    ensures r.BridgeOnline? <==> m.name == "bridge" && payload.Some? && m.suffix == Some(StateSuffix)
  {
    if m.name == "bridge" then
      if m.suffix.Some? && payload.Some? then
        if m.suffix.value == StateSuffix then BridgeOnline(payload.value == "online")
        else if m.suffix.value == ConfigSuffix then BridgeConfig(payload.value)
        else BridgeConsumed
      else Unqualified
    else if payload.None? then DeviceConsumed
    else if m.suffix.Some? then DeviceAvailability(m.name, payload.value == "online")
    else DeviceTelemetry(m.name, payload.value)
  }

  /** A topic that no earlier dispatcher takes goes to the friendly-name dispatcher. */
  lemma ReachesNameDispatch(s: Settings, topic: string, payload: Option<string>, m: NameMatch)
    requires !IsIgnoredTopic(topic) && !IsSetEcho(s, topic) && MatchDiscovery(s, topic).None?
    requires topic != s.baseTopic + "/bridge/config/devices" && topic != s.baseTopic + "/bridge/networkmap/raw"
    requires topic != s.baseTopic + "/bridge/log"
    requires MatchFriendlyName(s, topic) == Some(m)
    ensures Classify(s, topic, payload) == DispatchFriendlyName(m, payload)
  {
  }

  /** Neither prefix extends the other, as with the defaults "zigbee2mqtt" and "homeassistant". */
  predicate Separated(s: Settings) {
    !StartsWith(Prefix(s), DiscoveryPrefix(s)) && !StartsWith(DiscoveryPrefix(s), Prefix(s))
  }

  /** Two prefixes of one text are prefixes of one another. */
  lemma PrefixesComparable(t: string, a: string, b: string)
    requires StartsWith(t, a)
    ensures StartsWith(t, b) ==> StartsWith(a, b) || StartsWith(b, a)
  {
    if StartsWith(t, b) {
      if |a| <= |b| {
        assert b[..|a|] == t[..|a|];
      } else {
        assert a[..|b|] == t[..|b|];
      }
    }
  }

  /** With separated prefixes, no topic under the base topic is a discovery topic. */
  lemma NotDiscovery(s: Settings, topic: string)
    requires Separated(s) && StartsWith(topic, Prefix(s))
    ensures MatchDiscovery(s, topic).None?
  {
    PrefixesComparable(topic, Prefix(s), DiscoveryPrefix(s));
  }

  /** A text ending in `suf` agrees with it on its last characters. */
  lemma EndsWithAt(t: string, suf: string, k: nat)
    requires k < |suf|
    ensures EndsWith(t, suf) ==> t[|t| - |suf| + k] == suf[k]
  {
    if EndsWith(t, suf) {
      assert t[|t| - |suf|..][k] == suf[k];
    }
  }

  /** A text ending in `suf` shares its last three characters. */
  lemma EndsWithLast(t: string, suf: string)
    requires |suf| >= 3
    ensures EndsWith(t, suf) ==> t[|t| - 3..] == suf[|suf| - 3..]
  {
    if EndsWith(t, suf) {
      assert t[|t| - 3..] == t[|t| - |suf|..][|suf| - 3..];
    }
  }

  /** Every ignored suffix has a '/' at positions 0 and 7, so a topic with a single '/' ends in none of them. */
  lemma OneSlashNotIgnored(topic: string, at: nat)
    requires forall j :: 0 <= j < |topic| && topic[j] == '/' ==> j == at
    ensures !IsIgnoredTopic(topic)
  {
    forall i | 0 <= i < |IgnoredSuffixes| ensures !EndsWith(topic, IgnoredSuffixes[i]) {
      var suf := IgnoredSuffixes[i];
      assert suf[0] == '/' && suf[7] == '/';
      EndsWithAt(topic, suf, 0);
      EndsWithAt(topic, suf, 7);
    }
  }

  /** The ignored suffixes end in "get", "oin", "ame", "vel" and "map"; a topic ending otherwise is not ignored. */
  lemma EndingNotIgnored(topic: string)
    requires |topic| >= 3 && topic[|topic| - 3..] !in {"get", "oin", "ame", "vel", "map"}
    ensures !IsIgnoredTopic(topic)
  {
    forall i | 0 <= i < |IgnoredSuffixes| ensures !EndsWith(topic, IgnoredSuffixes[i]) {
      var suf := IgnoredSuffixes[i];
      EndsWithLast(topic, suf);
      assert suf[|suf| - 3..] in {"get", "oin", "ame", "vel", "map"};
    }
  }

  /** A name without '/' cannot start a text that begins with "bridge/" unless it is "bridge". */
  lemma BridgeSegment(name: string, more: string, lit: string)
    requires '/' !in name && |more| > 0 && more[0] == '/'
    requires |lit| >= 7 && lit[..7] == "bridge/" && name + more == lit
    ensures name == "bridge"
  {
    assert forall k :: 0 <= k < 6 ==> lit[k] != '/';
    assert forall k :: 0 <= k < |name| ==> name[k] == lit[k];
    assert lit[6] == '/';
    assert lit[|name|] == '/';
    assert |name| == 6;
    assert name == lit[..6];
  }

  /** A '/' at the end of a set tail. */
  lemma SetTailSlash(r: string, end: string)
    ensures SetTail(r, end) ==> '/' in r
  {
    if SetTail(r, end) {
      assert r[|r| - 4 - |end|] == '/';
    }
  }

  /** A message on a plain device's topic is telemetry for that device (or consumed without payload). */
  lemma DeviceTopicRoute(s: Settings, name: string, payload: Option<string>)
    requires PlainName(name) && name != "bridge" && '/' !in s.baseTopic && Separated(s)
    ensures Classify(s, Prefix(s) + name, payload)
         == if payload.Some? then DeviceTelemetry(name, payload.value) else DeviceConsumed
  {
    var t := Prefix(s) + name;
    assert forall j :: 0 <= j < |s.baseTopic| ==> t[j] == s.baseTopic[j];
    assert forall j :: |Prefix(s)| <= j < |t| ==> t[j] == name[j - |Prefix(s)|];
    OneSlashNotIgnored(t, |s.baseTopic|);
    assert t[|Prefix(s)|..] == name;
    SetTailSlash(name, "");
    SetTailSlash(name, "\n");
    NotDiscovery(s, t);
    ExactTopicsNeedSlash(s, name);
    NameRoundTrip(s, name);
  }

  /** The three exact bridge topics are not a plain name's topic. */
  lemma ExactTopicsNeedSlash(s: Settings, name: string)
    requires PlainName(name)
    ensures Prefix(s) + name != s.baseTopic + "/bridge/config/devices"
    ensures Prefix(s) + name != s.baseTopic + "/bridge/networkmap/raw"
    ensures Prefix(s) + name != s.baseTopic + "/bridge/log"
  {
    var p := Prefix(s);
    assert (s.baseTopic + "/bridge/config/devices")[|p|..] == "bridge/config/devices";
    assert (s.baseTopic + "/bridge/networkmap/raw")[|p|..] == "bridge/networkmap/raw";
    assert (s.baseTopic + "/bridge/log")[|p|..] == "bridge/log";
    assert (p + name)[|p|..] == name;
    assert "bridge/config/devices"[6] == '/' && "bridge/networkmap/raw"[6] == '/' && "bridge/log"[6] == '/';
  }

  /** The last character of a set tail. */
  lemma SetTailLast(r: string)
    ensures SetTail(r, "") ==> r[|r| - 1] == 't'
    ensures SetTail(r, "\n") ==> r[|r| - 1] == '\n'
  {
    if SetTail(r, "") {
      assert r[|r| - 4..][3] == 't';
    }
    if SetTail(r, "\n") {
      assert r[|r| - 5..][4] == '\n';
    }
  }

  /** A plain name followed by text starting with '/' is one of the exact bridge topics only when the name is "bridge". */
  lemma ExactTopicIsBridge(s: Settings, name: string, more: string, lit: string)
    requires '/' !in name && |more| > 0 && more[0] == '/'
    requires |lit| >= 8 && lit[..8] == "/bridge/"
    ensures Prefix(s) + name + more == s.baseTopic + lit ==> name == "bridge"
  {
    if Prefix(s) + name + more == s.baseTopic + lit {
      assert (Prefix(s) + name + more)[|Prefix(s)|..] == name + more;
      assert (s.baseTopic + lit)[|Prefix(s)|..] == lit[1..];
      assert lit[1..][..7] == lit[..8][1..];
      BridgeSegment(name, more, lit[1..]);
    }
  }

  /** A topic whose last characters fit neither an ignored suffix nor "/set" is not dropped. */
  lemma EndingNotDropped(s: Settings, t: string)
    requires |t| >= 3 && t[|t| - 3..] !in {"get", "oin", "ame", "vel", "map"}
    requires t[|t| - 1] != 't' && t[|t| - 1] != '\n'
    ensures !IsIgnoredTopic(t) && !IsSetEcho(s, t)
  {
    EndingNotIgnored(t);
    if StartsWith(t, Prefix(s)) && |t| > |Prefix(s)| {
      var r := t[|Prefix(s)|..];
      assert r[|r| - 1] == t[|t| - 1];
      SetTailLast(r);
    }
  }

  /** The last characters of a suffixed topic are those of the suffix word. */
  lemma SuffixEnding(t: string, x: Suffix)
    requires EndsWith(t, SuffixText(x))
    ensures t[|t| - 3..] !in {"get", "oin", "ame", "vel", "map"}
    ensures t[|t| - 1] != 't' && t[|t| - 1] != '\n'
  {
    var w := SuffixText(x);
    assert t[|t| - 3..] == w[|w| - 3..];
  }

  /** The ignore list, the set pattern and the discovery pattern do not take a plain name followed by a suffix. */
  lemma SuffixTopicNotDropped(s: Settings, name: string, x: Suffix)
    requires Separated(s)
    ensures var t := Prefix(s) + name + "/" + SuffixText(x);
      !IsIgnoredTopic(t) && !IsSetEcho(s, t) && MatchDiscovery(s, t).None?
  {
    var t := Prefix(s) + name + "/" + SuffixText(x);
    assert t[|t| - |SuffixText(x)|..] == SuffixText(x);
    SuffixEnding(t, x);
    EndingNotDropped(s, t);
    NotDiscovery(s, t);
  }

  /** The exact bridge topics are not a device's topic followed by a suffix. */
  lemma SuffixTopicNotExact(s: Settings, name: string, x: Suffix)
    requires PlainName(name) && name != "bridge"
    ensures var t := Prefix(s) + name + "/" + SuffixText(x);
      && t != s.baseTopic + "/bridge/config/devices" && t != s.baseTopic + "/bridge/networkmap/raw"
      && t != s.baseTopic + "/bridge/log"
  {
    var more := "/" + SuffixText(x);
    assert Prefix(s) + name + "/" + SuffixText(x) == Prefix(s) + name + more;
    assert "/bridge/config/devices"[..8] == "/bridge/";
    ExactTopicIsBridge(s, name, more, "/bridge/config/devices");
    assert "/bridge/networkmap/raw"[..8] == "/bridge/";
    ExactTopicIsBridge(s, name, more, "/bridge/networkmap/raw");
    assert "/bridge/log"[..8] == "/bridge/";
    ExactTopicIsBridge(s, name, more, "/bridge/log");
  }

  /** The bridge's suffixed topics other than "config/devices" are not the exact topics: their lengths differ. */
  lemma BridgeSuffixNotExact(s: Settings, x: Suffix)
    requires x != ConfigDevicesSuffix
    ensures var t := Prefix(s) + "bridge" + "/" + SuffixText(x);
      && t != s.baseTopic + "/bridge/config/devices" && t != s.baseTopic + "/bridge/networkmap/raw"
      && t != s.baseTopic + "/bridge/log"
  {
    assert |SuffixText(x)| in {12, 5, 6};
  }

  /** A message on a plain device's topic with a suffix is an availability report, online exactly
      for the payload "online". */
  lemma DeviceSuffixRoute(s: Settings, name: string, x: Suffix, payload: Option<string>)
    requires PlainName(name) && name != "bridge" && Separated(s)
    ensures Classify(s, Prefix(s) + name + "/" + SuffixText(x), payload)
         == if payload.Some? then DeviceAvailability(name, payload.value == "online") else DeviceConsumed
  {
    SuffixTopicNotDropped(s, name, x);
    SuffixTopicNotExact(s, name, x);
    SuffixRoundTrip(s, name, x);
    ReachesNameDispatch(s, Prefix(s) + name + "/" + SuffixText(x), payload, NameMatch(name, Some(x)));
  }

  /** The bridge's own topics: "state" reports online exactly for "online", "config" carries the
      bridge configuration, "availability" is consumed; without payload nothing is handled. */
  lemma BridgeSuffixRoute(s: Settings, x: Suffix, payload: Option<string>)
    requires x != ConfigDevicesSuffix && Separated(s)
    ensures Classify(s, Prefix(s) + "bridge" + "/" + SuffixText(x), payload)
         == if payload.None? then Unqualified
            else if x == StateSuffix then BridgeOnline(payload.value == "online")
            else if x == ConfigSuffix then BridgeConfig(payload.value)
            else BridgeConsumed
  {
    assert PlainName("bridge");
    SuffixTopicNotDropped(s, "bridge", x);
    BridgeSuffixNotExact(s, x);
    SuffixRoundTrip(s, "bridge", x);
    ReachesNameDispatch(s, Prefix(s) + "bridge" + "/" + SuffixText(x), payload, NameMatch("bridge", Some(x)));
  }

  /** The bare bridge topic is never handled: the bridge branch needs a suffix. */
  lemma BareBridgeUnqualified(s: Settings, payload: Option<string>)
    requires '/' !in s.baseTopic && Separated(s)
    ensures Classify(s, Prefix(s) + "bridge", payload) == Unqualified
  {
    var t := Prefix(s) + "bridge";
    assert forall j :: 0 <= j < |s.baseTopic| ==> t[j] == s.baseTopic[j];
    assert forall j :: |Prefix(s)| <= j < |t| ==> t[j] == "bridge"[j - |Prefix(s)|];
    OneSlashNotIgnored(t, |s.baseTopic|);
    assert t[|Prefix(s)|..] == "bridge";
    SetTailSlash("bridge", "");
    SetTailSlash("bridge", "\n");
    NotDiscovery(s, t);
    assert PlainName("bridge");
    ExactTopicsNeedSlash(s, "bridge");
    NameRoundTrip(s, "bridge");
  }

  /** A discovery config topic with a payload asks for the entity to be merged; without "config"
      or without payload the message is consumed and nothing else happens. */
  lemma DiscoveryRoute(s: Settings, entityClass: string, deviceId: string, component: string, withConfig: bool, payload: Option<string>)
    requires entityClass != "" && '/' !in entityClass
    requires deviceId != "" && '/' !in deviceId
    requires component != "" && '/' !in component
    ensures Classify(s, DiscoveryTopic(s, entityClass, deviceId, component, if withConfig then "config" else ""), payload)
         == if withConfig && payload.Some? then EntityConfig(entityClass, deviceId, component, payload.value) else DiscoveryConsumed
  {
    var tail := if withConfig then "config" else "";
    var t := DiscoveryTopic(s, entityClass, deviceId, component, tail);
    DiscoveryTopicShape(s, entityClass, deviceId, component, tail);
    assert t[|t| - 1] == (if withConfig then 'g' else '/');
    assert t[|t| - 3..][2] == t[|t| - 1];
    EndingNotIgnored(t);
    if StartsWith(t, Prefix(s)) {
      SetTailLast(t[|Prefix(s)|..]);
    }
    DiscoveryRoundTrip(s, entityClass, deviceId, component, tail);
  }

  /** A device's command topic is dropped before any dispatcher sees it. */
  lemma SetEchoRoute(s: Settings, name: string, payload: Option<string>)
    requires |name| > 0 && '/' !in name
    ensures Classify(s, Prefix(s) + name + "/set", payload) == Ignored
  {
    SetTopicIsEcho(s, name);
  }

  /** A command topic under a two-segment name is not dropped; it reaches the other dispatchers. */
  lemma MultiSegmentSetRoute(s: Settings, first: string, second: string, payload: Option<string>)
    ensures Classify(s, Prefix(s) + first + "/" + second + "/set", payload) != Ignored
  {
    var t := Prefix(s) + first + "/" + second + "/set";
    assert t[|t| - 3..] == "set";
    EndingNotIgnored(t);
    MultiSegmentSetIsNoEcho(s, first, second);
  }

  /** A text the optional suffix group completes ends in a line feed or in the last three letters of a suffix word. */
  lemma SuffixRestEnding(rest: string, x: Suffix)
    ensures SuffixRest(rest, x) ==> rest[|rest| - 1] == '\n' || (|rest| >= 3 && rest[|rest| - 3..] in {"ity", "ate", "fig", "ces"})
  {
    var w := SuffixText(x);
    if rest == "/" + w {
      assert rest[|rest| - 3..] == w[|w| - 3..];
    }
  }

  /** No cut of a name that ends unlike any suffix word completes the pattern early. */
  lemma NoTailMatch(rest: string)
    requires |rest| >= 1 && rest[|rest| - 1] != '\n'
    requires |rest| >= 3 ==> rest[|rest| - 3..] !in {"ity", "ate", "fig", "ces"}
    ensures TailMatch(rest).None?
  {
    forall x: Suffix ensures !SuffixRest(rest, x) {
      SuffixRestEnding(rest, x);
    }
  }

  /** A name without line feeds that ends unlike every suffix word is read whole, slashes and all. */
  lemma WholeNameRoundTrip(s: Settings, name: string)
    requires |name| >= 3 && '\n' !in name && name[|name| - 3..] !in {"ity", "ate", "fig", "ces"}
    ensures MatchFriendlyName(s, Prefix(s) + name) == Some(NameMatch(name, None))
  {
    var t := Prefix(s) + name;
    var r := t[|Prefix(s)|..];
    assert r == name;
    forall k | 1 <= k < |name| ensures TailMatch(r[k..]).None? {
      var rest := name[k..];
      assert rest[|rest| - 1] == name[|name| - 1];
      if |rest| >= 3 {
        assert rest[|rest| - 3..] == name[|name| - 3..];
      }
      NoTailMatch(rest);
    }
    LazyNameIs(r, |name|, None);
    assert r[..|name|] == name;
  }

  /** The base topic followed by `lit` is under the prefix. */
  lemma UnderPrefix(s: Settings, lit: string)
    requires |lit| >= 1 && lit[0] == '/'
    ensures StartsWith(s.baseTopic + lit, Prefix(s))
  {
    assert (s.baseTopic + lit)[..|Prefix(s)|] == s.baseTopic + lit[..1];
  }

  /** The device-list and network-map topics hand their payload to the decoders, which fault on a
      missing payload; the log topic hands it to the log handler. */
  lemma ExactTopicRoutes(s: Settings, payload: Option<string>)
    requires Separated(s)
    ensures Classify(s, s.baseTopic + "/bridge/config/devices", payload)
         == if payload.Some? then DeviceList(payload.value) else NullPayloadFault
    ensures Classify(s, s.baseTopic + "/bridge/networkmap/raw", payload)
         == if payload.Some? then NetworkMapRaw(payload.value) else NullPayloadFault
    ensures payload.Some? ==> Classify(s, s.baseTopic + "/bridge/log", payload) == BridgeLog(payload.value)
  {
    var t1, t2, t3 := s.baseTopic + "/bridge/config/devices", s.baseTopic + "/bridge/networkmap/raw", s.baseTopic + "/bridge/log";
    assert t1[|t1| - 3..] == "ces";
    assert t2[|t2| - 3..] == "raw";
    assert t3[|t3| - 3..] == "log";
    EndingNotDropped(s, t1);
    EndingNotDropped(s, t2);
    EndingNotDropped(s, t3);
    UnderPrefix(s, "/bridge/config/devices");
    UnderPrefix(s, "/bridge/networkmap/raw");
    UnderPrefix(s, "/bridge/log");
    NotDiscovery(s, t1);
    NotDiscovery(s, t2);
    NotDiscovery(s, t3);
  }

  /** No dispatcher before the friendly-name one takes the remove command's echo. */
  lemma RemoveEchoPassesThrough(s: Settings)
    requires Separated(s)
    ensures var t := s.baseTopic + "/bridge/config/remove";
      && !IsIgnoredTopic(t) && !IsSetEcho(s, t) && MatchDiscovery(s, t).None?
      && t != s.baseTopic + "/bridge/config/devices" && t != s.baseTopic + "/bridge/networkmap/raw"
      && t != s.baseTopic + "/bridge/log"
  {
    var t := s.baseTopic + "/bridge/config/remove";
    assert t[|t| - 3..] == "ove";
    EndingNotDropped(s, t);
    UnderPrefix(s, "/bridge/config/remove");
    NotDiscovery(s, t);
    assert |t| == |s.baseTopic| + 21;
  }

  /** The friendly-name pattern reads the remove command's echo as one whole name. */
  lemma RemoveEchoName(s: Settings)
    ensures MatchFriendlyName(s, s.baseTopic + "/bridge/config/remove") == Some(NameMatch("bridge/config/remove", None))
  {
    var name := "bridge/config/remove";
    assert s.baseTopic + "/bridge/config/remove" == Prefix(s) + name;
    assert name[|name| - 3..] == "ove";
    assert forall i :: 0 <= i < |name| ==> name[i] != '\n';
    WholeNameRoundTrip(s, name);
  }

  /** The echo of a remove command is not ignored: it is read as telemetry from a device named
      "bridge/config/remove", carrying the removed name as its payload. */
  lemma RemoveEchoIsTelemetry(s: Settings, removed: string)
    requires Separated(s)
    ensures Classify(s, s.baseTopic + "/bridge/config/remove", Some(removed))
         == DeviceTelemetry("bridge/config/remove", removed)
  {
    RemoveEchoPassesThrough(s);
    RemoveEchoName(s);
    ReachesNameDispatch(s, s.baseTopic + "/bridge/config/remove", Some(removed), NameMatch("bridge/config/remove", None));
  }

  /** A command topic under a two-segment name reaches the friendly-name dispatcher as telemetry
      for the whole topic remainder: the set echo is not caught. */
  lemma MultiSegmentSetIsTelemetry(s: Settings, first: string, second: string, command: string)
    requires Separated(s) && '\n' !in first && '\n' !in second
    ensures var name := first + "/" + second + "/set";
      Classify(s, Prefix(s) + name, Some(command)) == DeviceTelemetry(name, command)
  {
    var name := first + "/" + second + "/set";
    var t := Prefix(s) + name;
    MultiSegmentSetPasses(s, first, second);
    MultiSegmentSetName(s, first, second);
    ReachesNameDispatch(s, t, Some(command), NameMatch(name, None));
  }

  /** A two-segment command topic is neither dropped nor a discovery or exact bridge topic. */
  lemma MultiSegmentSetPasses(s: Settings, first: string, second: string)
    requires Separated(s)
    ensures var t := Prefix(s) + (first + "/" + second + "/set");
      && !IsIgnoredTopic(t) && !IsSetEcho(s, t) && MatchDiscovery(s, t).None?
      && t != s.baseTopic + "/bridge/config/devices" && t != s.baseTopic + "/bridge/networkmap/raw"
      && t != s.baseTopic + "/bridge/log"
  {
    var t := Prefix(s) + (first + "/" + second + "/set");
    assert t == Prefix(s) + first + "/" + second + "/set";
    assert t[|t| - 3..] == "set";
    EndingNotIgnored(t);
    MultiSegmentSetIsNoEcho(s, first, second);
    assert StartsWith(t, Prefix(s));
    NotDiscovery(s, t);
    assert t[|t| - 1] == 't';
    NotExactByLast(s, t);
  }

  /** The whole remainder of a two-segment command topic is taken as the friendly name. */
  lemma MultiSegmentSetName(s: Settings, first: string, second: string)
    requires '\n' !in first && '\n' !in second
    ensures var name := first + "/" + second + "/set";
      && MatchFriendlyName(s, Prefix(s) + name) == Some(NameMatch(name, None))
      && name != "bridge"
  {
    var name := first + "/" + second + "/set";
    assert name[|name| - 3..] == "set";
    assert '\n' !in name;
    WholeNameRoundTrip(s, name);
    assert name != "bridge" by {
      assert name[|name| - 1] == 't';
    }
  }

  /** The three exact bridge topics end in 's', 'w' and 'g'; a topic ending otherwise is none of them. */
  lemma NotExactByLast(s: Settings, t: string)
    requires |t| > 0 && t[|t| - 1] != 's' && t[|t| - 1] != 'w' && t[|t| - 1] != 'g'
    ensures t != s.baseTopic + "/bridge/config/devices" && t != s.baseTopic + "/bridge/networkmap/raw"
    ensures t != s.baseTopic + "/bridge/log"
  {
    var a := s.baseTopic + "/bridge/config/devices";
    var b := s.baseTopic + "/bridge/networkmap/raw";
    var c := s.baseTopic + "/bridge/log";
    assert a[|a| - 1] == 's' && b[|b| - 1] == 'w' && c[|c| - 1] == 'g';
  }
}
