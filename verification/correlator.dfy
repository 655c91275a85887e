/** The waiting lists of `MqttConnectionService`: each command the service publishes may leave a
    pending completion token under a key, and the bridge's later report of the effect removes the
    entry and completes its token. A token stands for a `TaskCompletionSource`; each update of a
    list is one atomic step. */
module Correlator {
  import opened Wrappers
  import opened Devices

  /** An opaque completion token. */
  type Token = nat

  /** The six waiting lists, the next unused token and the tokens already completed. */
  datatype Pending = Pending(
    rename: map<string, Token>,
    remove: map<string, Token>,
    permitJoin: map<bool, Token>,
    bind: map<(string, string), Token>,
    unbind: map<(string, string), Token>,
    logLevel: map<LogLevel, Token>,
    next: Token,
    completed: set<Token>)

  const Empty: Pending := Pending(map[], map[], map[], map[], map[], map[], 0, {})

  /** Every token in a list was handed out before `n`. */
  predicate Below<K>(m: map<K, Token>, n: Token) {
    forall k :: k in m ==> m[k] < n
  }

  /** Tokens, pending or completed, are all handed out below `next`, so `next` is fresh. */
  predicate Valid(p: Pending) {
    && Below(p.rename, p.next) && Below(p.remove, p.next) && Below(p.permitJoin, p.next)
    && Below(p.bind, p.next) && Below(p.unbind, p.next) && Below(p.logLevel, p.next)
    && (forall t :: t in p.completed ==> t < p.next)
  }

  /** The command a call publishes; the payload is what the bridge receives. */
  datatype Command =
    | RenameCommand(from: string, to: string)
    | RemoveCommand(name: string)
    | PermitJoinCommand(permit: bool)
    | BindCommand(source: string, target: string)
    | UnbindCommand(source: string, target: string)
    | LogLevelCommand(level: LogLevel)

  /** The topic each command is published on, under the base topic. */
  function CommandTopic(baseTopic: string, c: Command): string {
    match c
    case RenameCommand(_, _) => baseTopic + "/bridge/config/rename"
    case RemoveCommand(_) => baseTopic + "/bridge/config/remove"
    case PermitJoinCommand(_) => baseTopic + "/bridge/config/permit_join"
    case BindCommand(s, _) => baseTopic + "/bridge/bind/" + s
    case UnbindCommand(s, _) => baseTopic + "/bridge/unbind/" + s
    case LogLevelCommand(_) => baseTopic + "/bridge/config/log_level"
  }

  /** A call either throws before publishing (the key is already pending, or the id of a device
      that is unknown is read), or publishes its command and waits on a token, or publishes without
      waiting. */
  datatype Outcome =
    | Rejected
    | Sent(state: Pending, command: Command, awaited: Option<Token>)

  /** `TryAdd`: registers a fresh token under a key that is not yet pending. */
  function Register<K>(m: map<K, Token>, k: K, t: Token): (r: Option<map<K, Token>>)
    ensures r.None? <==> k in m
    ensures r.Some? ==> k in r.value && r.value[k] == t && r.value - {k} == m
  {
    if k in m then None else Some(m[k := t])
  }

  /** `TryRemove`: takes the entry for a key out of a list, if there is one. */
  function Take<K>(m: map<K, Token>, k: K): (r: (map<K, Token>, Option<Token>))
    ensures k !in r.0 && r.0 == m - {k}
    ensures r.1.Some? <==> k in m
    ensures r.1.Some? ==> r.1.value == m[k]
  {
    if k in m then (m - {k}, Some(m[k])) else (m, None)
  }

  /** Completes the token taken out of a list, if any. */
  function Complete(p: Pending, taken: Option<Token>): Pending {
    match taken
    case Some(t) => p.(completed := p.completed + {t})
    case None => p
  }

  /** `RenameDeviceAndWait`: single-flight per current friendly name. */
  function RenameAndWait(p: Pending, name: string, newName: string): (o: Outcome)
    requires Valid(p)
    ensures o.Rejected? <==> name in p.rename
    ensures o.Sent? ==> (
      && Valid(o.state) && o.command == RenameCommand(name, newName)
      && o.awaited == Some(p.next) && p.next !in p.completed
      && o.state == p.(rename := p.rename[name := p.next], next := p.next + 1))
  {
    match Register(p.rename, name, p.next)
    case None => Rejected
    case Some(m) => Sent(p.(rename := m, next := p.next + 1), RenameCommand(name, newName), Some(p.next))
  }

  /** `RemoveDeviceAndWait`: single-flight per friendly name. */
  function RemoveAndWait(p: Pending, name: string): (o: Outcome)
    requires Valid(p)
    ensures o.Rejected? <==> name in p.remove
    ensures o.Sent? ==> (
      && Valid(o.state) && o.command == RemoveCommand(name)
      && o.awaited == Some(p.next) && p.next !in p.completed
      && o.state == p.(remove := p.remove[name := p.next], next := p.next + 1))
  {
    match Register(p.remove, name, p.next)
    case None => Rejected
    case Some(m) => Sent(p.(remove := m, next := p.next + 1), RemoveCommand(name), Some(p.next))
  }

  /** `AllowJoinAndWait`: a call for a value already pending waits on the pending token; the
      command is published either way. */
  function AllowJoinAndWait(p: Pending, permit: bool): (o: Outcome)
    requires Valid(p)
    ensures o.Sent? && Valid(o.state) && o.command == PermitJoinCommand(permit)
    ensures permit in p.permitJoin ==> o.state == p && o.awaited == Some(p.permitJoin[permit])
    ensures permit !in p.permitJoin ==>
      o.state == p.(permitJoin := p.permitJoin[permit := p.next], next := p.next + 1) && o.awaited == Some(p.next)
  {
    match Register(p.permitJoin, permit, p.next)
    case None => Sent(p, PermitJoinCommand(permit), Some(p.permitJoin[permit]))
    case Some(m) => Sent(p.(permitJoin := m, next := p.next + 1), PermitJoinCommand(permit), Some(p.next))
  }

  /** `SetLogLevel`: like `AllowJoinAndWait`, keyed by level. */
  function SetLogLevelAndWait(p: Pending, level: LogLevel): (o: Outcome)
    requires Valid(p)
    ensures o.Sent? && Valid(o.state) && o.command == LogLevelCommand(level)
    ensures level in p.logLevel ==> o.state == p && o.awaited == Some(p.logLevel[level])
    ensures level !in p.logLevel ==>
      o.state == p.(logLevel := p.logLevel[level := p.next], next := p.next + 1) && o.awaited == Some(p.next)
  {
    match Register(p.logLevel, level, p.next)
    case None => Sent(p, LogLevelCommand(level), Some(p.logLevel[level]))
    case Some(m) => Sent(p.(logLevel := m, next := p.next + 1), LogLevelCommand(level), Some(p.next))
  }

  /** `string.IsNullOrEmpty` on a device's Zigbee id. */
  predicate NoId(id: Option<string>) {
    id.None? || id.value == ""
  }

  /** The key a bind waits on: both ends' Zigbee ids, when both are non-empty. */
  function BindKey(source: Device, target: Device): (k: Option<(string, string)>)
    ensures k.Some? <==> !NoId(source.zigbeeId) && !NoId(target.zigbeeId)
    ensures k.Some? ==> k.value == (source.zigbeeId.value, target.zigbeeId.value)
  {
    if NoId(source.zigbeeId) || NoId(target.zigbeeId) then None
    else Some((source.zigbeeId.value, target.zigbeeId.value))
  }

  /** `Bind`: `source` and `target` are what the two device lookups return (null when the name is
      unknown, which makes reading its id throw). The target's id is read only when the source has
      one, since `||` stops at the first empty id: a source without an id publishes without
      waiting even when the target is unknown. The call waits only when both ids are non-empty, and
      is then single-flight per id pair. */
  function BindAndWait(p: Pending, sourceName: string, targetName: string, source: Option<Device>, target: Option<Device>): (o: Outcome)
    requires Valid(p)
    ensures o.Rejected? <==> (
      || source.None?
      || (!NoId(source.value.zigbeeId) && (
        || target.None?
        || (BindKey(source.value, target.value).Some? && BindKey(source.value, target.value).value in p.bind))))
    ensures o.Sent? ==> Valid(o.state) && o.command == BindCommand(sourceName, targetName)
    ensures o.Sent? && (NoId(source.value.zigbeeId) || BindKey(source.value, target.value).None?) ==>
      o.state == p && o.awaited.None?
    ensures o.Sent? && !NoId(source.value.zigbeeId) && BindKey(source.value, target.value).Some? ==>
      var k := BindKey(source.value, target.value).value;
      o.state == p.(bind := p.bind[k := p.next], next := p.next + 1) && o.awaited == Some(p.next)
  {
    if source.None? then Rejected
    else if NoId(source.value.zigbeeId) then Sent(p, BindCommand(sourceName, targetName), None)
    else if target.None? then Rejected
    else match BindKey(source.value, target.value)
      case None => Sent(p, BindCommand(sourceName, targetName), None)
      case Some(k) =>
        match Register(p.bind, k, p.next)
        case None => Rejected
        case Some(m) => Sent(p.(bind := m, next := p.next + 1), BindCommand(sourceName, targetName), Some(p.next))
  }


  /** `Unbind`: the same rules as `Bind`, on its own list. */
  function UnbindAndWait(p: Pending, sourceName: string, targetName: string, source: Option<Device>, target: Option<Device>): (o: Outcome)
    requires Valid(p)
    ensures o.Rejected? <==> (
      || source.None?
      || (!NoId(source.value.zigbeeId) && (
        || target.None?
        || (BindKey(source.value, target.value).Some? && BindKey(source.value, target.value).value in p.unbind))))
    ensures o.Sent? ==> Valid(o.state) && o.command == UnbindCommand(sourceName, targetName)
    ensures o.Sent? && (NoId(source.value.zigbeeId) || BindKey(source.value, target.value).None?) ==>
      o.state == p && o.awaited.None?
    ensures o.Sent? && !NoId(source.value.zigbeeId) && BindKey(source.value, target.value).Some? ==>
      var k := BindKey(source.value, target.value).value;
      o.state == p.(unbind := p.unbind[k := p.next], next := p.next + 1) && o.awaited == Some(p.next)
  {
    if source.None? then Rejected
    else if NoId(source.value.zigbeeId) then Sent(p, UnbindCommand(sourceName, targetName), None)
    else if target.None? then Rejected
    else match BindKey(source.value, target.value)
      case None => Sent(p, UnbindCommand(sourceName, targetName), None)
      case Some(k) =>
        match Register(p.unbind, k, p.next)
        case None => Rejected
        case Some(m) => Sent(p.(unbind := m, next := p.next + 1), UnbindCommand(sourceName, targetName), Some(p.next))
  }


  /** A confirmation took exactly the entry for `k` out of `before`, completing its token, and
      touched nothing else. */
  predicate Resolved<K>(before: map<K, Token>, after: map<K, Token>, k: K, p: Pending, q: Pending) {
    && after == before - {k}
    && q.next == p.next
    && (k in before ==> q.completed == p.completed + {before[k]})
    && (k !in before ==> q == p)
  }

  /** The log reported a rename away from `from`. */
  function ConfirmRename(p: Pending, from: string): (q: Pending)
    ensures (Valid(p) ==> Valid(q)) && Resolved(p.rename, q.rename, from, p, q)
    ensures q == p.(rename := q.rename, completed := q.completed)
  {
    var (m, t) := Take(p.rename, from);
    Complete(p.(rename := m), t)
  }

  /** The log reported the removal of `name`. */
  function ConfirmRemove(p: Pending, name: string): (q: Pending)
    ensures (Valid(p) ==> Valid(q)) && Resolved(p.remove, q.remove, name, p, q)
    ensures q == p.(remove := q.remove, completed := q.completed)
  {
    var (m, t) := Take(p.remove, name);
    Complete(p.(remove := m), t)
  }

  /** The log reported a bind between `from` and `to`. */
  function ConfirmBind(p: Pending, from: string, to: string): (q: Pending)
    ensures (Valid(p) ==> Valid(q)) && Resolved(p.bind, q.bind, (from, to), p, q)
    ensures q == p.(bind := q.bind, completed := q.completed)
  {
    var (m, t) := Take(p.bind, (from, to));
    Complete(p.(bind := m), t)
  }

  /** The log reported an unbind between `from` and `to`. */
  function ConfirmUnbind(p: Pending, from: string, to: string): (q: Pending)
    ensures (Valid(p) ==> Valid(q)) && Resolved(p.unbind, q.unbind, (from, to), p, q)
    ensures q == p.(unbind := q.unbind, completed := q.completed)
  {
    var (m, t) := Take(p.unbind, (from, to));
    Complete(p.(unbind := m), t)
  }

  /** The bridge published its configuration: the entries for the reported permit-join value and
      the reported log level are resolved, in that order. */
  function ConfirmConfig(p: Pending, permit: bool, level: LogLevel): (q: Pending)
    ensures (Valid(p) ==> Valid(q)) && q.permitJoin == p.permitJoin - {permit} && q.logLevel == p.logLevel - {level}
    ensures q == p.(permitJoin := q.permitJoin, logLevel := q.logLevel, completed := q.completed)
    ensures q.completed == p.completed
      + (if permit in p.permitJoin then {p.permitJoin[permit]} else {})
      + (if level in p.logLevel then {p.logLevel[level]} else {})
  {
    var (m1, t1) := Take(p.permitJoin, permit);
    var p1 := Complete(p.(permitJoin := m1), t1);
    var (m2, t2) := Take(p1.logLevel, level);
    Complete(p1.(logLevel := m2), t2)
  }

  /** A second rename of a name still pending is refused, and so publishes nothing. */
  lemma RenameSingleFlight(p: Pending, name: string, newName: string, otherName: string)
    requires Valid(p) && RenameAndWait(p, name, newName).Sent?
    ensures RenameAndWait(RenameAndWait(p, name, newName).state, name, otherName).Rejected?
  {
  }

  /** A rename confirmed by the log completes the token the caller awaits and leaves the lists as
      they were before the call; only the token counter has moved. */
  lemma {:induction false} RenameRoundTrip(p: Pending, name: string, newName: string)
    requires Valid(p) && name !in p.rename
    ensures var o := RenameAndWait(p, name, newName);
      && o.Sent? && o.awaited.Some?
      && var q := ConfirmRename(o.state, name);
      && o.awaited.value in q.completed && o.awaited.value !in p.completed
      && q == p.(next := p.next + 1, completed := p.completed + {o.awaited.value})
  {
    var o := RenameAndWait(p, name, newName);
    var q := ConfirmRename(o.state, name);
    assert q.rename == p.rename;
  }

  /** A remove confirmed by the log completes the awaited token and restores the lists. */
  lemma {:induction false} RemoveRoundTrip(p: Pending, name: string)
    requires Valid(p) && name !in p.remove
    ensures var o := RemoveAndWait(p, name);
      && o.Sent? && o.awaited.Some?
      && var q := ConfirmRemove(o.state, name);
      && o.awaited.value in q.completed && o.awaited.value !in p.completed
      && q == p.(next := p.next + 1, completed := p.completed + {o.awaited.value})
  {
    var o := RemoveAndWait(p, name);
    var q := ConfirmRemove(o.state, name);
    assert q.remove == p.remove;
  }

  /** A confirmation for another name leaves a pending rename pending. */
  lemma OtherConfirmationKeepsWaiting(p: Pending, name: string, newName: string, other: string)
    requires Valid(p) && name !in p.rename && other != name
    ensures var o := RenameAndWait(p, name, newName);
      && o.Sent?
      && var q := ConfirmRename(o.state, other);
      && name in q.rename && o.awaited.value !in q.completed
  {
  }

  /** Two permit-join requests for the same value while the first is pending wait on one token;
      both publish, and one configuration report releases both callers. */
  lemma PermitJoinShared(p: Pending, permit: bool, level: LogLevel)
    requires Valid(p) && permit !in p.permitJoin
    ensures var o1 := AllowJoinAndWait(p, permit);
      var o2 := AllowJoinAndWait(o1.state, permit);
      && o1.awaited == o2.awaited && o2.state == o1.state
      && o1.command == o2.command == PermitJoinCommand(permit)
      && o1.awaited.value in ConfirmConfig(o2.state, permit, level).completed
      && permit !in ConfirmConfig(o2.state, permit, level).permitJoin
  {
  }

  /** A configuration report for the other permit-join value releases nobody waiting for this one. */
  lemma PermitJoinOtherValueKeepsWaiting(p: Pending, permit: bool, level: LogLevel)
    requires Valid(p) && permit !in p.permitJoin
    ensures var o := AllowJoinAndWait(p, permit);
      && o.awaited.value !in ConfirmConfig(o.state, !permit, level).completed
      && permit in ConfirmConfig(o.state, !permit, level).permitJoin
  {
  }

  /** A bind between known devices with ids waits on their id pair and is released by a log entry
      naming that pair; a second bind of the pair meanwhile is refused. */
  lemma BindRoundTrip(p: Pending, sourceName: string, targetName: string, source: Device, target: Device)
    requires Valid(p) && !NoId(source.zigbeeId) && !NoId(target.zigbeeId)
    requires (source.zigbeeId.value, target.zigbeeId.value) !in p.bind
    ensures var o := BindAndWait(p, sourceName, targetName, Some(source), Some(target));
      && o.Sent? && o.awaited == Some(p.next)
      && BindAndWait(o.state, sourceName, targetName, Some(source), Some(target)).Rejected?
      && var q := ConfirmBind(o.state, source.zigbeeId.value, target.zigbeeId.value);
      && p.next in q.completed && q.bind == p.bind
  {
    var o := BindAndWait(p, sourceName, targetName, Some(source), Some(target));
    var k := (source.zigbeeId.value, target.zigbeeId.value);
    assert BindKey(source, target) == Some(k);
    var q := ConfirmBind(o.state, k.0, k.1);
    assert q.bind == p.bind[k := p.next] - {k};
    assert q.bind == p.bind;
  }

  /** A bind where the source has no Zigbee id, or the target is known and has none, publishes
      without waiting and can be repeated at will; with an id-less source the target's lookup
      does not matter, even when it came back empty. */
  lemma BindWithoutIdNeverWaits(p: Pending, sourceName: string, targetName: string, source: Device, target: Option<Device>)
    requires Valid(p) && (NoId(source.zigbeeId) || (target.Some? && NoId(target.value.zigbeeId)))
    ensures var o := BindAndWait(p, sourceName, targetName, Some(source), target);
      && o.Sent? && o.state == p && o.awaited.None? && o.command == BindCommand(sourceName, targetName)
      && BindAndWait(o.state, sourceName, targetName, Some(source), target) == o
  {
  }

  /** Two log-level requests for the same level while the first is pending wait on one token;
      both publish, and one configuration report of that level releases both callers. */
  lemma LogLevelShared(p: Pending, level: LogLevel, permit: bool)
    requires Valid(p) && level !in p.logLevel
    ensures var o1 := SetLogLevelAndWait(p, level);
      var o2 := SetLogLevelAndWait(o1.state, level);
      && o1.awaited == o2.awaited && o2.state == o1.state
      && o1.command == o2.command == LogLevelCommand(level)
      && o1.awaited.value in ConfirmConfig(o2.state, permit, level).completed
      && level !in ConfirmConfig(o2.state, permit, level).logLevel
  {
  }

  /** A configuration report of another level releases nobody waiting for this one. */
  lemma LogLevelOtherValueKeepsWaiting(p: Pending, level: LogLevel, other: LogLevel, permit: bool)
    requires Valid(p) && level !in p.logLevel && other != level
    ensures var o := SetLogLevelAndWait(p, level);
      && o.awaited.value !in ConfirmConfig(o.state, permit, other).completed
      && level in ConfirmConfig(o.state, permit, other).logLevel
  {
  }

  /** An unbind between known devices with ids waits on their id pair and is released by a log
      entry naming that pair; a second unbind of the pair meanwhile is refused. */
  lemma UnbindRoundTrip(p: Pending, sourceName: string, targetName: string, source: Device, target: Device)
    requires Valid(p) && !NoId(source.zigbeeId) && !NoId(target.zigbeeId)
    requires (source.zigbeeId.value, target.zigbeeId.value) !in p.unbind
    ensures var o := UnbindAndWait(p, sourceName, targetName, Some(source), Some(target));
      && o.Sent? && o.awaited == Some(p.next)
      && UnbindAndWait(o.state, sourceName, targetName, Some(source), Some(target)).Rejected?
      && var q := ConfirmUnbind(o.state, source.zigbeeId.value, target.zigbeeId.value);
      && p.next in q.completed && q.unbind == p.unbind
  {
    var o := UnbindAndWait(p, sourceName, targetName, Some(source), Some(target));
    var k := (source.zigbeeId.value, target.zigbeeId.value);
    assert BindKey(source, target) == Some(k);
    var q := ConfirmUnbind(o.state, k.0, k.1);
    assert q.unbind == p.unbind[k := p.next] - {k};
    assert q.unbind == p.unbind;
  }

  /** An unbind where the source has no Zigbee id, or the target is known and has none, publishes
      without waiting, whatever the target's lookup returned in the first case. */
  lemma UnbindWithoutIdNeverWaits(p: Pending, sourceName: string, targetName: string, source: Device, target: Option<Device>)
    requires Valid(p) && (NoId(source.zigbeeId) || (target.Some? && NoId(target.value.zigbeeId)))
    ensures var o := UnbindAndWait(p, sourceName, targetName, Some(source), target);
      && o.Sent? && o.state == p && o.awaited.None? && o.command == UnbindCommand(sourceName, targetName)
      && UnbindAndWait(o.state, sourceName, targetName, Some(source), target) == o
  {
  }
}
