/** What has to change on a switch (switch-configurator/src/diff/mod.rs): the loops, each
    proved against what it collects. */
module Diff {
  import opened Basics
  import opened Models
  import Merge
  import RowMerge
  import opened Validation
  import opened KeyedDiff

  /** What was read from a switch. */
  datatype SwitchState = SwitchState(
    vlans: seq<Vlan>, ports: seq<Port>, portMirrors: seq<PortMirror>,
    snmp: Option<SnmpConfig>, managementVlan: Option<u16>)

  datatype SnmpDiff = SnmpDiff(
    communities: Changes<string, SnmpCommunity>, receivers: Changes<string, TrapReceiver>,
    traps: Changes<TrapType, TrapType>)
  {
    predicate HasChanges() { !communities.Nothing() || !receivers.Nothing() || !traps.Nothing() }
  }

  datatype StateDiff = StateDiff(
    vlans: Changes<u16, Vlan>, portsToConfigure: seq<Port>, portsToReset: seq<string>,
    mirrors: Changes<string, PortMirror>, mirrorDestPorts: seq<string>, snmp: SnmpDiff,
    managementVlanChanged: bool, managementVlan: Option<u16>)
  {
    /** `has_changes`: whether anything is sent to the switch at all. */
    predicate HasChanges() {
      || !vlans.Nothing() || portsToConfigure != [] || portsToReset != []
      || !mirrors.Nothing() || mirrorDestPorts != [] || snmp.HasChanges() || managementVlanChanged
    }
  }

  // ---- one row against another ----

  /** `vlans_equivalent_for_model`. */
  predicate VlansEquivalent(current: Vlan, desired: Vlan, descriptions: bool) {
    && current.id == desired.id && current.name == desired.name
    && current.ipConfig == desired.ipConfig
    && !(descriptions && current.description != desired.description)
  }

  /** The ids that are not among those taken away. */
  function WithoutVlans(ids: seq<u16>, away: seq<u16>): (r: seq<u16>)
    ensures forall id :: id in r <==> id in ids && id !in away
  {
    if ids == [] then []
    else
      assert ids == ids[..|ids| - 1] + [ids[|ids| - 1]];
      WithoutVlans(ids[..|ids| - 1], away) + if ids[|ids| - 1] in away then [] else [ids[|ids| - 1]]
  }

  /** `inferred_mode`. */
  function InferredMode(p: Port): PortMode { if p.taggedVlans == [] then Access else Trunk }

  /** `ports_equivalent_for_model`. */
  predicate PortsEquivalent(current: Port, desired: Port, poe: bool) {
    if || current.portId != desired.portId || current.vlan != desired.vlan
       || current.extras.description != desired.extras.description
       || current.extras.enabled != desired.extras.enabled
       || current.extras.macNotify != desired.extras.macNotify
       || current.extras.speedDuplex != desired.extras.speedDuplex
    then false
    else if poe && current.extras.poeEnabled != desired.extras.poeEnabled then false
    else
      var currentTagged := WithoutVlans(current.taggedVlans, [current.vlan]);
      var desiredTagged := WithoutVlans(desired.taggedVlans, [desired.vlan]);
      if currentTagged != desiredTagged then false
      else if currentTagged == [] && desiredTagged == [] then true
      else InferredMode(current) == InferredMode(desired)
  }

  /** `is_port_in_default_state`. */
  predicate IsDefault(p: Port) {
    && !p.extras.enabled && p.vlan == 1 && InferredMode(p) == Access
    && (p.extras.description == None || p.extras.description == Some(""))
    && p.taggedVlans == [] && !p.extras.macNotify
  }

  /** What a mirror's destination port should be. */
  predicate IsBaseline(p: Port) {
    p.vlan == 1 && p.extras.enabled && InferredMode(p) == Access && p.taggedVlans == []
  }

  function HostKeys(hosts: seq<AllowedHost>): seq<string> {
    seq(|hosts|, i requires 0 <= i < |hosts| => if hosts[i] == AutoHost then "auto" else hosts[i].network)
  }

  /** `same_hosts` compares two sorted lists: the same texts as often. */
  predicate SameCommunity(current: SnmpCommunity, desired: SnmpCommunity) {
    && current.access == desired.access
    && multiset(HostKeys(current.allowedHosts)) == multiset(HostKeys(desired.allowedHosts))
  }

  const COMMUNITY_NAME := (c: SnmpCommunity) => c.name
  const RECEIVER_HOST := (r: TrapReceiver) => r.host
  const SAME_MIRROR := (a: PortMirror, b: PortMirror) => a == b
  const SAME_COMMUNITY := (a: SnmpCommunity, b: SnmpCommunity) => SameCommunity(a, b)
  /** A receiver with the host of another counts as the same one. */
  const SAME_RECEIVER := (a: TrapReceiver, b: TrapReceiver) => true
  const SAME_TRAP := (a: TrapType, b: TrapType) => true
  /** VLAN 1 cannot be removed. */
  const IS_VLAN_1 := (id: u16) => id == 1

  function SameVlan(descriptions: bool): (Vlan, Vlan) -> bool {
    (a: Vlan, b: Vlan) => VlansEquivalent(a, b, descriptions)
  }

  function Never<K>(): K -> bool { (k: K) => false }

  predicate Describes(desired: SwitchConfig) { desired.model.Some? ==> desired.model.value.SupportsVlanDescription() }

  predicate HasPoe(desired: SwitchConfig) { desired.model.Some? ==> desired.model.value.SupportsPoe() }

  // ---- ports ----

  predicate NeedsConfig(current: seq<Port>, desired: Port, poe: bool) {
    var was := FindLast(current, PORT_ID, desired.portId);
    was.None? || !PortsEquivalent(was.value, desired, poe)
  }

  function ToConfigure(current: seq<Port>, desired: seq<Port>, poe: bool): seq<Port> {
    if desired == [] then []
    else
      var last := desired[|desired| - 1];
      ToConfigure(current, desired[..|desired| - 1], poe) + if NeedsConfig(current, last, poe) then [last] else []
  }

  predicate IsMirrorDest(mirrors: seq<PortMirror>, id: string) { exists m <- mirrors :: m.destinationPort == id }

  /** With `enforce_port_config`: on the switch, not desired, no mirror's destination, and
      not in its default state. */
  predicate NeedsReset(current: SwitchState, desired: SwitchConfig, id: string) {
    var was := FindLast(current.ports, PORT_ID, id);
    && was.Some? && FindLast(desired.ports, PORT_ID, id).None?
    && !IsMirrorDest(desired.portMirrors, id) && !IsDefault(was.value)
  }

  predicate NeedsBaseline(current: seq<Port>, id: string) {
    var was := FindLast(current, PORT_ID, id);
    was.None? || !IsBaseline(was.value)
  }

  /** The destinations that need it, each where it is first mentioned. */
  function ToBaseline(current: seq<Port>, mirrors: seq<PortMirror>): seq<string> {
    if mirrors == [] then []
    else
      var front, id := mirrors[..|mirrors| - 1], mirrors[|mirrors| - 1].destinationPort;
      ToBaseline(current, front) + if !IsMirrorDest(front, id) && NeedsBaseline(current, id) then [id] else []
  }

  method PortsToConfigure(current: seq<Port>, desired: seq<Port>, poe: bool) returns (ports: seq<Port>)
    ensures ports == ToConfigure(current, desired, poe)
  {
    var currentPorts := Collect(current, PORT_ID);
    ports := [];
    for i := 0 to |desired|
      invariant ports == ToConfigure(current, desired[..i], poe)
    {
      assert desired[..i + 1][..i] == desired[..i];
      var p := desired[i];
      var needsConfig := if p.portId in currentPorts then !PortsEquivalent(currentPorts[p.portId], p, poe) else true;
      if needsConfig { ports := ports + [p]; }
    }
    assert desired[..|desired|] == desired;
  }

  method PortsToReset(current: SwitchState, desired: SwitchConfig) returns (ids: seq<string>)
    ensures EachOnce(ids, Itself<string>()) && forall id :: id in ids <==> NeedsReset(current, desired, id)
  {
    var currentPorts := Collect(current.ports, PORT_ID);
    var desiredPorts := Collect(desired.ports, PORT_ID);
    ids := [];
    var all := currentPorts.Keys - desiredPorts.Keys;
    var rest := all;
    while rest != {}
      invariant rest <= all && EachOnce(ids, Itself<string>())
      invariant forall id :: id in ids <==> id in all - rest && NeedsReset(current, desired, id)
      decreases rest
    {
      var id :| id in rest;
      rest := rest - {id};
      assert id !in ids;
      if !IsMirrorDest(desired.portMirrors, id) && !IsDefault(currentPorts[id]) { ids := ids + [id]; }
    }
  }

  method DestPortsToConfigure(current: seq<Port>, mirrors: seq<PortMirror>) returns (ids: seq<string>)
    ensures ids == ToBaseline(current, mirrors)
  {
    var currentPorts := Collect(current, PORT_ID);
    var seen: set<string> := {};
    ids := [];
    for i := 0 to |mirrors|
      invariant ids == ToBaseline(current, mirrors[..i])
      invariant forall id :: id in seen <==> IsMirrorDest(mirrors[..i], id)
    {
      assert mirrors[..i + 1] == mirrors[..i] + [mirrors[i]] && mirrors[..i + 1][..i] == mirrors[..i];
      var dest := mirrors[i].destinationPort;
      if dest !in seen {
        seen := seen + {dest};
        var needsConfig := if dest in currentPorts then !IsBaseline(currentPorts[dest]) else true;
        if needsConfig { ids := ids + [dest]; }
      }
    }
    assert mirrors[..|mirrors|] == mirrors;
  }

  // ---- SNMP ----

  /** `effective_snmp`: with the service's own read community, which only reads. */
  function EffectiveSnmp(sw: SwitchConfig): Option<SnmpConfig> {
    if !ReadsEnabled(sw.snmp) then sw.snmp
    else
      var snmp := sw.snmp.value;
      var own := snmp.ownReads.value.community.value.(access := Operator);
      if exists c <- snmp.communities :: c.name == own.name then sw.snmp
      else Some(snmp.(communities := snmp.communities + [own]))
  }

  function KeysOf<K, R>(rows: seq<R>, key: R -> K): (r: seq<K>)
    ensures |r| == |rows|
  {
    seq(|rows|, i requires 0 <= i < |rows| => key(rows[i]))
  }

  function AddAll<K, R>(rows: seq<R>): Changes<K, R> { Changes(rows, [], []) }

  function RemoveAll<K, R>(rows: seq<R>, key: R -> K): Changes<K, R> { Changes([], KeysOf(rows, key), []) }

  const BY_NAME := (a: string, b: string) => Merge.StringLess(a, b)

  const NO_SNMP_CHANGES := SnmpDiff(Changes([], [], []), Changes([], [], []), Changes([], [], []))

  ghost predicate IsSnmpDiff(current: Option<SnmpConfig>, desired: Option<SnmpConfig>, d: SnmpDiff) {
    match (current, desired)
    case (None, None) => d == NO_SNMP_CHANGES
    case (None, Some(s)) => d == SnmpDiff(AddAll(s.communities), AddAll(s.trapReceivers), AddAll(s.enabledTraps))
    case (Some(c), None) =>
      d == SnmpDiff(RemoveAll(c.communities, COMMUNITY_NAME), RemoveAll(c.trapReceivers, RECEIVER_HOST),
                    RemoveAll(c.enabledTraps, Itself<TrapType>()))
    case (Some(c), Some(s)) =>
      && IsDiff(c.communities, s.communities, COMMUNITY_NAME, SAME_COMMUNITY, Never<string>(), d.communities)
      && Ascends(d.communities.add, COMMUNITY_NAME, BY_NAME) && Ascends(d.communities.remove, Itself<string>(), BY_NAME)
      && Ascends(d.communities.update, COMMUNITY_NAME, BY_NAME)
      && IsDiff(c.trapReceivers, s.trapReceivers, RECEIVER_HOST, SAME_RECEIVER, Never<string>(), d.receivers)
      && IsDiff(c.enabledTraps, s.enabledTraps, Itself<TrapType>(), SAME_TRAP, Never<TrapType>(), d.traps)
  }

  /** The walk over the key sets yields them in any order; these are sorted by name. */
  method DiffCommunities(current: seq<SnmpCommunity>, desired: seq<SnmpCommunity>)
    returns (d: Changes<string, SnmpCommunity>)
    ensures IsDiff(current, desired, COMMUNITY_NAME, SAME_COMMUNITY, Never<string>(), d)
    ensures Ascends(d.add, COMMUNITY_NAME, BY_NAME) && Ascends(d.remove, Itself<string>(), BY_NAME)
    ensures Ascends(d.update, COMMUNITY_NAME, BY_NAME)
  {
    d := DiffRows(current, desired, COMMUNITY_NAME, SAME_COMMUNITY, Never<string>());
    NamesOrdered();
    SortAscends(d.add, COMMUNITY_NAME, BY_NAME);
    SortAscends(d.remove, Itself<string>(), BY_NAME);
    SortAscends(d.update, COMMUNITY_NAME, BY_NAME);
    d := Changes(SortByKey(d.add, COMMUNITY_NAME, BY_NAME), SortByKey(d.remove, Itself<string>(), BY_NAME),
                 SortByKey(d.update, COMMUNITY_NAME, BY_NAME));
  }

  lemma NamesOrdered()
    ensures RowMerge.StrictOrder(BY_NAME)
  {
    Merge.KeysOrdered();
    assert forall a, b :: BY_NAME(a, b) == Merge.PORTS.lt(a, b);
  }

  method DiffSnmp(current: Option<SnmpConfig>, desired: Option<SnmpConfig>) returns (d: SnmpDiff)
    ensures IsSnmpDiff(current, desired, d)
  {
    match (current, desired)
    case (None, None) => d := NO_SNMP_CHANGES;
    case (None, Some(s)) => d := SnmpDiff(AddAll(s.communities), AddAll(s.trapReceivers), AddAll(s.enabledTraps));
    case (Some(c), None) =>
      d := SnmpDiff(RemoveAll(c.communities, COMMUNITY_NAME), RemoveAll(c.trapReceivers, RECEIVER_HOST),
                    RemoveAll(c.enabledTraps, Itself<TrapType>()));
    case (Some(c), Some(s)) =>
      var communities := DiffCommunities(c.communities, s.communities);
      var receivers := DiffRows(c.trapReceivers, s.trapReceivers, RECEIVER_HOST, SAME_RECEIVER, Never<string>());
      var traps := DiffRows(c.enabledTraps, s.enabledTraps, Itself<TrapType>(), SAME_TRAP, Never<TrapType>());
      d := SnmpDiff(communities, receivers, traps);
  }

  // ---- everything ----

  ghost predicate IsStateDiff(current: SwitchState, desired: SwitchConfig, enforce: bool, d: StateDiff) {
    && IsDiff(current.vlans, desired.vlans, VLAN_ID, SameVlan(Describes(desired)), IS_VLAN_1, d.vlans)
    && d.portsToConfigure == ToConfigure(current.ports, desired.ports, HasPoe(desired))
    && EachOnce(d.portsToReset, Itself<string>())
    && (forall id :: id in d.portsToReset <==> enforce && NeedsReset(current, desired, id))
    && IsDiff(current.portMirrors, desired.portMirrors, SESSION_ID, SAME_MIRROR, Never<string>(), d.mirrors)
    && d.mirrorDestPorts == ToBaseline(current.ports, desired.portMirrors)
    && IsSnmpDiff(current.snmp, EffectiveSnmp(desired), d.snmp)
    && d.managementVlanChanged == (current.managementVlan != desired.managementVlan)
    && (d.managementVlanChanged ==> d.managementVlan == desired.managementVlan)
  }

  method ComputeDiff(current: SwitchState, desired: SwitchConfig, enforce: bool) returns (d: StateDiff)
    ensures IsStateDiff(current, desired, enforce, d)
  {
    var vlans := DiffRows(current.vlans, desired.vlans, VLAN_ID, SameVlan(Describes(desired)), IS_VLAN_1);
    var ports := PortsToConfigure(current.ports, desired.ports, HasPoe(desired));
    var reset: seq<string> := [];
    if enforce { reset := PortsToReset(current, desired); }
    var mirrors := DiffRows(current.portMirrors, desired.portMirrors, SESSION_ID, SAME_MIRROR, Never<string>());
    var dests := DestPortsToConfigure(current.ports, desired.portMirrors);
    var snmp := DiffSnmp(current.snmp, EffectiveSnmp(desired));
    var changed := current.managementVlan != desired.managementVlan;
    var managementVlan := if changed then desired.managementVlan else None;
    d := StateDiff(vlans, ports, reset, mirrors, dests, snmp, changed, managementVlan);
  }

  // ---- ports on VLANs that are being removed ----

  datatype MigrationAction = MoveAccessToVlan1 | RemoveVlanFromTrunk(remaining: seq<u16>)

  datatype PortMigration = PortMigration(portId: string, vlanBeingRemoved: u16, action: MigrationAction)

  /** What makes a port need a migration: an access port is on the VLAN, a trunk lists it. */
  predicate Assigned(p: Port, id: u16) {
    match InferredMode(p)
    case Access => p.vlan == id
    case Trunk => id in p.taggedVlans
  }

  /** The first VLAN being removed that a port is assigned to decides its one migration. */
  function Migration(p: Port, removed: seq<u16>, from: nat): Option<PortMigration>
    requires from <= |removed|
    decreases |removed| - from
  {
    if from == |removed| then None
    else if !Assigned(p, removed[from]) then Migration(p, removed, from + 1)
    else
      var action := if InferredMode(p) == Access then MoveAccessToVlan1
                    else RemoveVlanFromTrunk(WithoutVlans(p.taggedVlans, removed));
      Some(PortMigration(p.portId, removed[from], action))
  }

  function Migrations(ports: seq<Port>, removed: seq<u16>): seq<PortMigration> {
    if ports == [] then []
    else
      var last := Migration(ports[|ports| - 1], removed, 0);
      Migrations(ports[..|ports| - 1], removed) + if last.Some? then [last.value] else []
  }

  method FindPortsToMigrate(ports: seq<Port>, removed: seq<u16>) returns (migrations: seq<PortMigration>)
    ensures migrations == Migrations(ports, removed)
  {
    migrations := [];
    for i := 0 to |ports|
      invariant migrations == Migrations(ports[..i], removed)
    {
      assert ports[..i + 1][..i] == ports[..i];
      ghost var before := migrations;
      var port := ports[i];
      var j := 0;
      while j < |removed|
        invariant 0 <= j <= |removed| && migrations == before
        invariant Migration(port, removed, 0) == Migration(port, removed, j)
      {
        var id := removed[j];
        match InferredMode(port) {
          case Access =>
            if port.vlan == id {
              migrations := migrations + [PortMigration(port.portId, id, MoveAccessToVlan1)];
              break;
            }
          case Trunk =>
            if id in port.taggedVlans {
              var remaining := WithoutVlans(port.taggedVlans, removed);
              migrations := migrations + [PortMigration(port.portId, id, RemoveVlanFromTrunk(remaining))];
              break;
            }
        }
        j := j + 1;
      }
      assert migrations == Migrations(ports[..i + 1], removed);
    }
    assert ports[..|ports|] == ports;
  }
}
