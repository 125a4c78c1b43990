/** What is read back from a switch after an apply (switch-configurator/src/vendors/: the
    `parse_current_state`, the command generators and `apply_configuration` of the three
    vendors), row by row. */
module Vendors {
  import opened Basics
  import opened Models
  import opened PortRange
  import opened Diff

  /** What a unit adds of its own: which ports deliver power, how a FortiSwitch lists the
      allowed VLANs it was given, which ports are read as monitored on an Aruba after the
      apply, in the order in which a hash map yields them, and whether `no mirror` ends its
      session, whatever command began it. */
  datatype Unit = Unit(
    powered: string -> bool, lists: seq<u16> -> seq<u16>, monitored: seq<string>, endsSession: bool)

  // ---- sorted lists of VLANs ----

  predicate Ascending(ids: seq<u16>) { forall i, j :: 0 <= i < j < |ids| ==> ids[i] < ids[j] }

  lemma AscendingSnoc(front: seq<u16>, last: u16)
    requires Ascending(front) && forall x :: x in front ==> x < last
    ensures Ascending(front + [last])
  {
    var r := front + [last];
    forall i, j | 0 <= i < j < |r| ensures r[i] < r[j] { assert r[i] in front; }
  }

  function InsertVlan(sorted: seq<u16>, id: u16): (r: seq<u16>)
    requires Ascending(sorted)
    ensures Ascending(r) && forall x :: x in r <==> x in sorted || x == id
  {
    if sorted == [] || sorted[|sorted| - 1] < id then AscendingSnoc(sorted, id); sorted + [id]
    else
      var front, last := sorted[..|sorted| - 1], sorted[|sorted| - 1];
      assert sorted == front + [last];
      if last == id then sorted
      else
        var r := InsertVlan(front, id);
        AscendingSnoc(r, last);
        r + [last]
  }

  /** The VLANs a port is tagged in, in the order of their blocks. */
  function SortedVlans(ids: seq<u16>): (r: seq<u16>)
    ensures Ascending(r) && forall x :: x in r <==> x in ids
  {
    if ids == [] then []
    else
      assert ids == ids[..|ids| - 1] + [ids[|ids| - 1]];
      InsertVlan(SortedVlans(ids[..|ids| - 1]), ids[|ids| - 1])
  }

  // ---- Aruba ----

  /** The VLAN blocks name ports by number only. */
  predicate IsPortNumber(id: string) {
    var n := NumberSuffix(id);
    n.Ok? && n.value.0 == "" && n.value.1 < 0x1_0000
  }

  /** A trunk is read with its native VLAN among the tagged ones, sorted. */
  function ArubaList(vlan: u16, tagged: seq<u16>): seq<u16> {
    if WithoutVlans(tagged, [vlan]) == [] then [] else SortedVlans(tagged + [vlan])
  }

  predicate ArubaReads(p: Port) {
    if IsPortNumber(p.portId)
    then p.taggedVlans == [] || (Ascending(p.taggedVlans) && p.vlan in p.taggedVlans && |p.taggedVlans| > 1)
    else p.vlan == 1 && p.taggedVlans == []
  }

  function ArubaConfigured(unit: Unit, poe: bool, p: Port): Port {
    var extras := p.extras.(poeEnabled := poe && p.extras.poeEnabled && unit.powered(p.portId));
    if IsPortNumber(p.portId) then p.(taggedVlans := ArubaList(p.vlan, p.taggedVlans), extras := extras)
    else p.(vlan := 1, taggedVlans := [], extras := extras)
  }

  function ArubaReset(was: Port): Port {
    was.(vlan := 1, taggedVlans := [], extras := was.extras.(description := None, enabled := false, macNotify := false))
  }

  /** `untagged vlan 1` leaves the tagged VLANs, but for those that are removed. */
  function ArubaBaseline(was: Port, removed: seq<u16>): Port {
    var tagged := WithoutVlans(was.taggedVlans, [was.vlan] + removed);
    was.(vlan := 1, taggedVlans := if IsPortNumber(was.portId) then ArubaList(1, tagged) else [],
         extras := was.extras.(description := None, enabled := true))
  }

  /** A port after its migration: out of the VLAN named, unless that is its native one. */
  function ArubaMoved(p: Port, removed: seq<u16>): Port {
    var m := Migration(p, removed, 0);
    if m.None? then p
    else if m.value.action == MoveAccessToVlan1 then p.(vlan := 1)
    else if m.value.vlanBeingRemoved == p.vlan then p
    else p.(taggedVlans := ArubaList(p.vlan, WithoutVlans(p.taggedVlans, [m.value.vlanBeingRemoved])))
  }

  // ---- FortiSwitch ----

  predicate IsNumbered(id: string) { id != [] && AllDigits(id) }

  predicate FortiReads(p: Port) { IsNumbered(p.portId) && p.vlan !in p.taggedVlans && !p.extras.macNotify }

  /** A description is set and never cleared, MAC notification neither set nor read. */
  function FortiConfigured(unit: Unit, was: Option<Port>, p: Port): Option<Port> {
    var before := if was.Some? then was.value.extras.description else None;
    var description := if p.extras.description.Some? then p.extras.description else before;
    var tagged := if p.taggedVlans == [] then [] else WithoutVlans(unit.lists(p.taggedVlans), [p.vlan]);
    if !IsNumbered(p.portId) then None
    else Some(p.(taggedVlans := tagged, extras := p.extras.(description := description, macNotify := false)))
  }

  /** What switches the port off is not the status that is read. */
  function FortiReset(was: Port): Port {
    was.(vlan := 1, taggedVlans := [], extras := was.extras.(description := None, poeEnabled := true))
  }

  /** Only the status is set. */
  function FortiBaseline(was: Port): Port { was.(extras := was.extras.(enabled := true)) }

  /** A VLAN has no name on a FortiSwitch, and a description only with an address: the reader
      takes what it misses from the first row of the configuration. */
  function FortiVlan(first: Vlan, was: Option<Vlan>, v: Vlan): Vlan {
    var before := if was.Some? then was.value else Vlan(v.id, v.name, first.description, NoAddress);
    if v.ipConfig == NoAddress then Vlan(v.id, first.name, before.description, before.ipConfig)
    else Vlan(v.id, first.name, if v.description.Some? then v.description else before.description, v.ipConfig)
  }

  /** The list of the direction not asked for stays, and a command without sources does nothing. */
  function FortiMirror(was: Option<PortMirror>, m: PortMirror): Option<PortMirror> {
    if m.sourcePorts == [] then was
    else if was.None? || m.direction == Both || m.direction == was.value.direction then Some(m)
    else Some(m.(direction := Both, sourcePorts := if m.direction == Tx then was.value.sourcePorts else m.sourcePorts))
  }

  // ---- by vendor ----

  /** A port that is not shown is as it left the factory. */
  function Factory(id: string): Port {
    Port(id, 1, [], PortExtras(Access, None, true, true, false, Auto), None, [])
  }

  function PortConfigured(vendor: Vendor, unit: Unit, poe: bool, was: Option<Port>, p: Port): Option<Port> {
    match vendor
    case Aruba => Some(ArubaConfigured(unit, poe, p))
    case Fortiswitch => FortiConfigured(unit, was, p)
    case Cisco => None
  }

  function PortReset(vendor: Vendor, was: Port): Port {
    if vendor == Aruba then ArubaReset(was) else FortiReset(was)
  }

  function PortBaseline(vendor: Vendor, removed: seq<u16>, was: Option<Port>, id: string): Option<Port> {
    var before := if was.Some? then was.value else Factory(id);
    match vendor
    case Aruba => Some(ArubaBaseline(before, removed))
    case Fortiswitch => if IsNumbered(id) then Some(FortiBaseline(before)) else None
    case Cisco => None
  }

  function VlanShown(vendor: Vendor, desired: seq<Vlan>): (Option<Vlan>, Vlan) -> Option<Vlan> {
    (was: Option<Vlan>, v: Vlan) =>
      match vendor
      case Aruba => Some(v.(description := None))
      case Fortiswitch =>
        var first := Find(desired, VLAN_ID, v.id);
        Some(FortiVlan(if first.Some? then first.value else v, was, v))
      case Cisco => None
  }

  const FORTI_MIRROR := (was: Option<PortMirror>, m: PortMirror) => FortiMirror(was, m)

  // ---- what a reader can return at all ----

  ghost predicate VlanReads(vendor: Vendor, desired: seq<Vlan>, v: Vlan) {
    match vendor
    case Aruba => v.description == None
    case Fortiswitch =>
      var first := Find(desired, VLAN_ID, v.id);
      first.Some? ==> v.name == first.value.name && (v.description == None ==> first.value.description == None)
    case Cisco => false
  }

  predicate PortReads(vendor: Vendor, p: Port) {
    match vendor
    case Aruba => ArubaReads(p)
    case Fortiswitch => FortiReads(p)
    case Cisco => false
  }

  predicate MirrorReads(vendor: Vendor, m: PortMirror) {
    match vendor
    case Aruba => m.sessionId == "1" && m.direction == Both && m.sourcePorts != []
    case Fortiswitch => m.sourcePorts != []
    case Cisco => false
  }

  /** From Cisco only the management VLAN is read, from Aruba at most one mirror session. */
  ghost predicate IsRead(vendor: Vendor, desired: SwitchConfig, s: SwitchState) {
    && (forall v :: v in s.vlans ==> VlanReads(vendor, desired.vlans, v))
    && (forall p :: p in s.ports ==> PortReads(vendor, p))
    && (forall m :: m in s.portMirrors ==> MirrorReads(vendor, m))
    && (vendor == Aruba ==> |s.portMirrors| <= 1)
    && (vendor == Cisco ==> s.snmp == None)
  }

  // ---- whether anything is sent ----

  /** `check_empty_state_safety`: nothing was read, though there should be something. */
  predicate IsRefused(current: SwitchState, desired: SwitchConfig) {
    current.vlans == [] && current.ports == [] && (desired.vlans != [] || desired.ports != [])
  }
}
