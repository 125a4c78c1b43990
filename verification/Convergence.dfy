/** Whether a switch is in its desired state after an apply: exactly which requests are
    (switch-configurator/src/vendors/: `apply_diff` and the second reading in
    `apply_configuration`). */
module Convergence {
  import opened Basics
  import opened Models
  import opened Validation
  import opened KeyedDiff
  import opened Diff
  import opened Vendors
  import opened DiffTheorems

  // ---- what is read after an apply ----

  predicate Uses(p: Port, id: u16) { p.vlan == id || id in p.taggedVlans }

  predicate Freed(p: Port, removed: seq<u16>) { forall id <- removed :: !Uses(p, id) }

  /** A port after the steps: ports configured, ports reset, and mirror destinations. One that
      is on a VLAN being removed, and not told anything, may be read as anything. */
  ghost predicate PortObeys(
    vendor: Vendor, unit: Unit, poe: bool, current: SwitchState, d: StateDiff, after: SwitchState, id: string)
  {
    var was, found := FindLast(current.ports, PORT_ID, id), FindLast(after.ports, PORT_ID, id);
    var written := FindLast(d.portsToConfigure, PORT_ID, id);
    if id in d.mirrorDestPorts then found == PortBaseline(vendor, d.vlans.remove, was, id)
    else if id in d.portsToReset then was.Some? && found == Some(PortReset(vendor, was.value))
    else if written.Some? then found == PortConfigured(vendor, unit, poe, was, written.value)
    else found == was || (was.Some? && !Freed(was.value, d.vlans.remove))
  }

  /** Aruba reads one session, under the id 1, with the ports that are monitored as sources. */
  ghost predicate ArubaMirrorsObey(
    unit: Unit, current: seq<PortMirror>, d: Changes<string, PortMirror>, after: seq<PortMirror>)
  {
    var written, was := FindLast(d.add + d.update, SESSION_ID, "1"), FindLast(current, SESSION_ID, "1");
    var dest := if written.Some? then Some(written.value.destinationPort)
                else if was.None? || ("1" in d.remove && unit.endsSession) then None
                else Some(was.value.destinationPort);
    after == if dest.None? || unit.monitored == [] then [] else [PortMirror("1", unit.monitored, dest.value, Both)]
  }

  predicate OnlySessionOne(mirrors: seq<PortMirror>) { forall m <- mirrors :: m.sessionId == "1" }

  /** `after` is what may be read after an apply that has `d` to send. */
  ghost predicate Applied(unit: Unit, current: SwitchState, desired: SwitchConfig, d: StateDiff, after: SwitchState)
    requires desired.model.Some?
  {
    var vendor := desired.model.value.VendorOf();
    if IsRefused(current, desired) then after == current
    else
      && IsRead(vendor, desired, after)
      && (vendor != Cisco ==>
            && Obeys(current.vlans, d.vlans, after.vlans, VLAN_ID, VlanShown(vendor, desired.vlans))
            && (forall id :: PortObeys(vendor, unit, HasPoe(desired), current, d, after, id)))
      && (vendor == Aruba && OnlySessionOne(desired.portMirrors) ==>
            ArubaMirrorsObey(unit, current.portMirrors, d.mirrors, after.portMirrors))
      && (vendor == Fortiswitch ==>
            Obeys(current.portMirrors, d.mirrors, after.portMirrors, SESSION_ID, FORTI_MIRROR))
  }

  // ---- which requests show as themselves ----

  /** A port that is configured: on Aruba, a tagged list without its native VLAN has to ascend,
      a port not known by number stays in VLAN 1, and PoE needs a port that has it; on
      FortiSwitch, no MAC notification, a list that is kept as given, and no description that
      would have to be cleared. */
  predicate PortFits(vendor: Vendor, unit: Unit, poe: bool, was: Option<Port>, p: Port) {
    var tagged := WithoutVlans(p.taggedVlans, [p.vlan]);
    match vendor
    case Aruba =>
      && (poe && p.extras.poeEnabled ==> unit.powered(p.portId))
      && if IsPortNumber(p.portId) then Ascending(tagged) else p.vlan == 1 && tagged == []
    case Fortiswitch =>
      && IsNumbered(p.portId) && !p.extras.macNotify
      && (p.extras.description.Some? || was.None? || was.value.extras.description.None?)
      && (p.taggedVlans != [] ==> WithoutVlans(unit.lists(p.taggedVlans), [p.vlan]) == tagged)
    case Cisco => false
  }

  lemma FrontOf(a: seq<u16>)
    requires Ascending(a) && a != []
    ensures var front, last := a[..|a| - 1], a[|a| - 1];
      a == front + [last] && Ascending(front) && forall x :: x in front <==> x in a && x < last
  {
    var front, last := a[..|a| - 1], a[|a| - 1];
    assert a == front + [last];
    forall x | x in front ensures x < last {
      var i :| 0 <= i < |front| && front[i] == x;
      assert a[i] == x;
    }
  }

  lemma SameEnd(a: seq<u16>, b: seq<u16>)
    requires Ascending(a) && Ascending(b) && a != [] && b != [] && forall x :: x in a <==> x in b
    ensures a[|a| - 1] == b[|b| - 1]
    ensures var front, back := a[..|a| - 1], b[..|b| - 1]; forall x :: x in front <==> x in back
  {
    var x, y := a[|a| - 1], b[|b| - 1];
    assert x in b && y in a;
    FrontOf(a);
    FrontOf(b);
  }

  lemma AscendingUnique(a: seq<u16>, b: seq<u16>)
    requires Ascending(a) && Ascending(b) && forall x :: x in a <==> x in b
    ensures a == b
    decreases |a|
  {
    assert |a| == 0 || a[0] in b;
    assert |b| == 0 || b[0] in a;
    if a != [] {
      SameEnd(a, b);
      FrontOf(a);
      FrontOf(b);
      AscendingUnique(a[..|a| - 1], b[..|b| - 1]);
    }
  }

  lemma {:induction false} WithoutAscends(ids: seq<u16>, away: seq<u16>)
    requires Ascending(ids)
    ensures Ascending(WithoutVlans(ids, away))
  {
    if ids != [] {
      var front, last := ids[..|ids| - 1], ids[|ids| - 1];
      WithoutAscends(front, away);
      AscendingSnoc(WithoutVlans(front, away), last);
    }
  }

  /** What Aruba's list is compared as. */
  lemma ArubaListKeeps(vlan: u16, tagged: seq<u16>)
    ensures WithoutVlans(ArubaList(vlan, tagged), [vlan]) == WithoutVlans(tagged, [vlan])
      <==> Ascending(WithoutVlans(tagged, [vlan]))
  {
    var list, wanted := ArubaList(vlan, tagged), WithoutVlans(tagged, [vlan]);
    WithoutAscends(list, [vlan]);
    if Ascending(wanted) { AscendingUnique(WithoutVlans(list, [vlan]), wanted); }
  }

  lemma ArubaPortFits(unit: Unit, poe: bool, p: Port)
    ensures PortFits(Aruba, unit, poe, None, p) <==> SettingOf(ArubaConfigured(unit, poe, p), poe) == SettingOf(p, poe)
  {
    ArubaListKeeps(p.vlan, p.taggedVlans);
  }

  lemma WithoutTwice(ids: seq<u16>, away: seq<u16>)
    ensures WithoutVlans(WithoutVlans(ids, away), away) == WithoutVlans(ids, away)
  {
    NothingToTake(WithoutVlans(ids, away), away);
  }

  lemma {:induction false} NothingToTake(ids: seq<u16>, away: seq<u16>)
    requires forall id :: id in ids ==> id !in away
    ensures WithoutVlans(ids, away) == ids
  {
    if ids != [] {
      var front, last := ids[..|ids| - 1], ids[|ids| - 1];
      assert ids == front + [last] && last in ids;
      NothingToTake(front, away);
    }
  }

  lemma FortiPortFits(unit: Unit, poe: bool, was: Option<Port>, p: Port)
    ensures PortFits(Fortiswitch, unit, poe, was, p) <==>
      var shown := FortiConfigured(unit, was, p);
      shown.Some? && SettingOf(shown.value, poe) == SettingOf(p, poe)
  {
    WithoutTwice(unit.lists(p.taggedVlans), [p.vlan]);
  }

  lemma PortFitsExactly(vendor: Vendor, unit: Unit, poe: bool, was: Option<Port>, p: Port)
    ensures PortFits(vendor, unit, poe, was, p) <==>
      var shown := PortConfigured(vendor, unit, poe, was, p);
      shown.Some? && SettingOf(shown.value, poe) == SettingOf(p, poe)
  {
    if vendor == Aruba {
      ArubaPortFits(unit, poe, p);
    } else if vendor == Fortiswitch {
      FortiPortFits(unit, poe, was, p);
    }
  }

  function FirstRow(vlans: seq<Vlan>, v: Vlan): Vlan {
    var first := Find(vlans, VLAN_ID, v.id);
    if first.Some? then first.value else v
  }

  /** A VLAN that is written: on FortiSwitch, the name of the first row with its id, an address
      whenever there was one, and a description only with an address. */
  predicate VlanFits(vendor: Vendor, desired: seq<Vlan>, was: Option<Vlan>, v: Vlan) {
    match vendor
    case Aruba => true
    case Fortiswitch =>
      var first := FirstRow(desired, v);
      && first.name == v.name
      && (v.ipConfig == NoAddress && was.Some? ==> was.value.ipConfig == NoAddress)
      && (v.ipConfig == NoAddress || v.description == None ==>
            v.description == if was.Some? then was.value.description else first.description)
    case Cisco => false
  }

  /** A mirror session on FortiSwitch: it has sources, and no direction is taken away. */
  predicate MirrorFits(was: Option<PortMirror>, m: PortMirror) {
    m.sourcePorts != [] && (was.None? || m.direction == Both || m.direction == was.value.direction)
  }

  /** The one session of an Aruba: under the id 1, both directions, and its sources read as
      listed; or none, and it can be ended. */
  predicate ArubaMirrorsFit(unit: Unit, current: seq<PortMirror>, desired: seq<PortMirror>) {
    var m := FindLast(desired, SESSION_ID, "1");
    && OnlySessionOne(desired)
    && if m.Some? then m.value.direction == Both && m.value.sourcePorts == unit.monitored && unit.monitored != []
       else current == [] || unit.endsSession || unit.monitored == []
  }

  ghost predicate Goes(current: SwitchState, desired: SwitchConfig, id: u16) {
    IsGone(current.vlans, desired.vlans, VLAN_ID, IS_VLAN_1, id)
  }

  /** A mirror destination that is not in its baseline state yet: tagged VLANs stay on Aruba
      unless they are removed, everything but the status on FortiSwitch. */
  ghost predicate DestFits(vendor: Vendor, current: SwitchState, desired: SwitchConfig, id: string) {
    var was := FindLast(current.ports, PORT_ID, id);
    match vendor
    case Aruba => was.Some? ==>
      forall x <- was.value.taggedVlans :: x == was.value.vlan || x == 1 || Goes(current, desired, x)
    case Fortiswitch => IsNumbered(id) && (was.Some? ==> was.value.vlan == 1 && was.value.taggedVlans == [])
    case Cisco => false
  }

  ghost predicate DesiredFit(unit: Unit, current: SwitchState, desired: SwitchConfig)
    requires desired.model.Some?
  {
    forall id ::
      var was, p := FindLast(current.ports, PORT_ID, id), FindLast(desired.ports, PORT_ID, id);
      p.Some? && NeedsConfig(current.ports, p.value, HasPoe(desired)) ==>
        PortFits(desired.model.value.VendorOf(), unit, HasPoe(desired), was, p.value)
  }

  ghost predicate DestsFit(current: SwitchState, desired: SwitchConfig)
    requires desired.model.Some?
  {
    forall m :: m in desired.portMirrors && NeedsBaseline(current.ports, m.destinationPort) ==>
      DestFits(desired.model.value.VendorOf(), current, desired, m.destinationPort)
  }

  /** A port that is reset: on FortiSwitch it has to be down already. */
  ghost predicate LeftOversFit(current: SwitchState, desired: SwitchConfig)
    requires desired.model.Some?
  {
    desired.model.value.VendorOf() == Fortiswitch ==> forall id :: NeedsReset(current, desired, id) ==>
      !FindLast(current.ports, PORT_ID, id).value.extras.enabled
  }

  ghost predicate PortsFit(unit: Unit, current: SwitchState, desired: SwitchConfig, enforce: bool)
    requires desired.model.Some?
  {
    && DesiredFit(unit, current, desired)
    && DestsFit(current, desired)
    && (enforce ==> LeftOversFit(current, desired))
  }

  /** The request shows as itself: everything that is written reads back as it was asked for. */
  ghost predicate Fits(unit: Unit, current: SwitchState, desired: SwitchConfig, enforce: bool)
    requires desired.model.Some?
  {
    var vendor := desired.model.value.VendorOf();
    if vendor == Cisco then desired.vlans == [] && desired.ports == [] && desired.portMirrors == []
    else
      && (forall v :: IsWritten(current.vlans, desired.vlans, VLAN_ID, SameVlan(Describes(desired)), v) ==>
            VlanFits(vendor, desired.vlans, FindLast(current.vlans, VLAN_ID, v.id), v))
      && PortsFit(unit, current, desired, enforce)
      && (vendor == Aruba ==> ArubaMirrorsFit(unit, current.portMirrors, desired.portMirrors))
      && (vendor == Fortiswitch ==>
            forall m :: IsWritten(current.portMirrors, desired.portMirrors, SESSION_ID, SAME_MIRROR, m) ==>
              MirrorFits(FindLast(current.portMirrors, SESSION_ID, m.sessionId), m))
  }

  // ---- ports ----

  lemma FindLastOfSnoc<K, R>(front: seq<R>, last: R, key: R -> K, k: K)
    ensures FindLast(front + [last], key, k) == if key(last) == k then Some(last) else FindLast(front, key, k)
  {
    assert (front + [last])[..|front|] == front;
  }

  lemma {:induction false} LastConfigured(current: seq<Port>, desired: seq<Port>, poe: bool, id: string)
    requires RowsAgree(desired, poe)
    ensures var p := FindLast(desired, PORT_ID, id);
      FindLast(ToConfigure(current, desired, poe), PORT_ID, id) ==
      if p.Some? && NeedsConfig(current, p.value, poe) then p else None
  {
    if desired != [] {
      var front, last := desired[..|desired| - 1], desired[|desired| - 1];
      assert desired == front + [last];
      LastConfigured(current, front, poe, id);
      var before, p := ToConfigure(current, front, poe), FindLast(front, PORT_ID, id);
      if NeedsConfig(current, last, poe) {
        FindLastOfSnoc(before, last, PORT_ID, id);
        assert ToConfigure(current, desired, poe) == before + [last];
      } else {
        assert ToConfigure(current, desired, poe) == before;
        if last.portId == id && p.Some? { SameNeeds(current, p.value, last, poe); }
      }
    }
  }

  lemma SameNeeds(current: seq<Port>, p: Port, q: Port, poe: bool)
    requires SettingOf(p, poe) == SettingOf(q, poe)
    ensures NeedsConfig(current, p, poe) <==> NeedsConfig(current, q, poe)
  {
    var was := FindLast(current, PORT_ID, p.portId);
    if was.Some? {
      PortsEquivalentExactly(was.value, p, poe);
      PortsEquivalentExactly(was.value, q, poe);
    }
  }

  lemma RemovedIsUndefined(current: SwitchState, desired: SwitchConfig, enforce: bool, d: StateDiff)
    requires IsStateDiff(current, desired, enforce, d)
    ensures forall id :: id in d.vlans.remove ==> id != 1 && FindLast(desired.vlans, VLAN_ID, id).None?
  {
    forall id | id in d.vlans.remove ensures id != 1 && FindLast(desired.vlans, VLAN_ID, id).None? {
      assert IsGone(current.vlans, desired.vlans, VLAN_ID, IS_VLAN_1, id);
    }
  }

  /** A port with the settings of a desired one is on no VLAN that is removed. */
  lemma DesiredStays(desired: SwitchConfig, p: Port, was: Port, removed: seq<u16>, poe: bool)
    requires desired.model.Some? && PortRefsOk(desired, p, true) && SettingOf(was, poe) == SettingOf(p, poe)
    requires forall id :: id in removed ==> id != 1 && FindLast(desired.vlans, VLAN_ID, id).None?
    ensures Freed(was, removed)
  {
    forall id | id in removed ensures !Uses(was, id) {
      assert !Defined(desired, id);
      assert id in was.taggedVlans && id != was.vlan ==> id in WithoutVlans(was.taggedVlans, [was.vlan]);
    }
  }

  lemma DesiredPortAfter(
    unit: Unit, current: SwitchState, desired: SwitchConfig, enforce: bool, d: StateDiff, after: SwitchState,
    id: string)
    requires desired.model.Some? && RefsOk(desired, true) && RowsAgree(desired.ports, HasPoe(desired))
    requires desired.model.value.VendorOf() != Cisco && FindLast(desired.ports, PORT_ID, id).Some?
    requires IsStateDiff(current, desired, enforce, d)
    requires PortObeys(desired.model.value.VendorOf(), unit, HasPoe(desired), current, d, after, id)
    ensures var p := FindLast(desired.ports, PORT_ID, id).value;
      HasSetting(after, p, HasPoe(desired)) <==>
        (NeedsConfig(current.ports, p, HasPoe(desired)) ==>
          PortFits(desired.model.value.VendorOf(), unit, HasPoe(desired), FindLast(current.ports, PORT_ID, id), p))
  {
    var poe, vendor, p := HasPoe(desired), desired.model.value.VendorOf(), FindLast(desired.ports, PORT_ID, id).value;
    ToBaselineHas(current.ports, desired.portMirrors);
    assert HasPort(desired, id) && !IsMirrorDest(desired.portMirrors, id);
    LastConfigured(current.ports, desired.ports, poe, id);
    var was := FindLast(current.ports, PORT_ID, id);
    PortFitsExactly(vendor, unit, poe, was, p);
    if !NeedsConfig(current.ports, p, poe) {
      PortsEquivalentExactly(was.value, p, poe);
      RemovedIsUndefined(current, desired, enforce, d);
      DesiredStays(desired, p, was.value, d.vlans.remove, poe);
    }
  }

  lemma OtherPortAfter(
    unit: Unit, current: SwitchState, desired: SwitchConfig, enforce: bool, d: StateDiff, after: SwitchState,
    id: string)
    requires desired.model.Some? && RefsOk(desired, true) && !HasPort(desired, id)
    requires desired.model.value.VendorOf() != Cisco && IsRead(desired.model.value.VendorOf(), desired, current)
    requires IsStateDiff(current, desired, enforce, d)
    requires PortObeys(desired.model.value.VendorOf(), unit, HasPoe(desired), current, d, after, id)
    ensures IsMirrorDest(desired.portMirrors, id) ==>
      (IsDest(after, id) <==> (NeedsBaseline(current.ports, id) ==>
        DestFits(desired.model.value.VendorOf(), current, desired, id)))
    ensures enforce ==>
      (!LeftOver(after, desired, id) <==> (NeedsReset(current, desired, id) ==>
        (desired.model.value.VendorOf() == Fortiswitch ==> !FindLast(current.ports, PORT_ID, id).value.extras.enabled)))
  {
    var poe, vendor := HasPoe(desired), desired.model.value.VendorOf();
    ToConfigureHas(current.ports, desired.ports, poe);
    ToBaselineHas(current.ports, desired.portMirrors);
    HasPortExactly(desired, id);
    RemovedIsUndefined(current, desired, enforce, d);
    var was := FindLast(current.ports, PORT_ID, id);
    if was.Some? { assert PortReads(vendor, was.value); }
    assert forall x :: x in d.vlans.remove <==> Goes(current, desired, x);
    if id in d.mirrorDestPorts { BaselineFits(vendor, current, desired, d.vlans.remove, id); }
  }

  lemma BaselineFits(vendor: Vendor, current: SwitchState, desired: SwitchConfig, removed: seq<u16>, id: string)
    requires vendor != Cisco && IsRead(vendor, desired, current)
    requires forall x :: x in removed <==> Goes(current, desired, x)
    ensures var was := FindLast(current.ports, PORT_ID, id);
      DestFits(vendor, current, desired, id) <==>
        PortBaseline(vendor, removed, was, id).Some? && IsBaseline(PortBaseline(vendor, removed, was, id).value)
  {
    var was := FindLast(current.ports, PORT_ID, id);
    if was.Some? {
      assert PortReads(vendor, was.value);
      ArubaListEmpty(1, WithoutVlans(was.value.taggedVlans, [was.value.vlan] + removed));
    }
  }

  lemma ArubaListEmpty(vlan: u16, tagged: seq<u16>)
    ensures ArubaList(vlan, tagged) == [] <==> forall x :: x in tagged ==> x == vlan
  {
    var left := WithoutVlans(tagged, [vlan]);
    assert left == [] || left[0] in left;
    assert vlan in SortedVlans(tagged + [vlan]);
  }

  lemma DesiredPortsAfter(
    unit: Unit, current: SwitchState, desired: SwitchConfig, enforce: bool, d: StateDiff, after: SwitchState)
    requires desired.model.Some? && RefsOk(desired, true) && RowsAgree(desired.ports, HasPoe(desired))
    requires desired.model.value.VendorOf() != Cisco && IsStateDiff(current, desired, enforce, d)
    requires forall id :: PortObeys(desired.model.value.VendorOf(), unit, HasPoe(desired), current, d, after, id)
    ensures (forall p :: p in desired.ports ==> HasSetting(after, p, HasPoe(desired))) <==>
      DesiredFit(unit, current, desired)
  {
    var poe := HasPoe(desired);
    forall id | FindLast(desired.ports, PORT_ID, id).Some? {
      DesiredPortAfter(unit, current, desired, enforce, d, after, id);
    }
    if DesiredFit(unit, current, desired) {
      forall p | p in desired.ports ensures HasSetting(after, p, poe) {
        var last := FindLast(desired.ports, PORT_ID, p.portId);
        assert last.Some? && SettingOf(last.value, poe) == SettingOf(p, poe);
        assert HasSetting(after, last.value, poe);
      }
    }
  }

  lemma DestsAfter(
    unit: Unit, current: SwitchState, desired: SwitchConfig, enforce: bool, d: StateDiff, after: SwitchState)
    requires desired.model.Some? && RefsOk(desired, true)
    requires desired.model.value.VendorOf() != Cisco && IsRead(desired.model.value.VendorOf(), desired, current)
    requires IsStateDiff(current, desired, enforce, d)
    requires forall id :: PortObeys(desired.model.value.VendorOf(), unit, HasPoe(desired), current, d, after, id)
    ensures (forall m :: m in desired.portMirrors ==> IsDest(after, m.destinationPort)) <==> DestsFit(current, desired)
  {
    var vendor := desired.model.value.VendorOf();
    forall m | m in desired.portMirrors
      ensures IsDest(after, m.destinationPort) <==> (NeedsBaseline(current.ports, m.destinationPort) ==>
        DestFits(vendor, current, desired, m.destinationPort))
    {
      var i :| 0 <= i < |desired.portMirrors| && desired.portMirrors[i] == m;
      OtherPortAfter(unit, current, desired, enforce, d, after, m.destinationPort);
    }
  }

  lemma LeftOversAfter(unit: Unit, current: SwitchState, desired: SwitchConfig, d: StateDiff, after: SwitchState)
    requires desired.model.Some? && RefsOk(desired, true)
    requires desired.model.value.VendorOf() != Cisco && IsRead(desired.model.value.VendorOf(), desired, current)
    requires IsStateDiff(current, desired, true, d)
    requires forall id :: PortObeys(desired.model.value.VendorOf(), unit, HasPoe(desired), current, d, after, id)
    ensures (forall id :: !LeftOver(after, desired, id)) <==> LeftOversFit(current, desired)
  {
    var vendor := desired.model.value.VendorOf();
    forall id
      ensures !LeftOver(after, desired, id) <==> (vendor == Fortiswitch && NeedsReset(current, desired, id) ==>
        !FindLast(current.ports, PORT_ID, id).value.extras.enabled)
    {
      HasPortExactly(desired, id);
      if !HasPort(desired, id) { OtherPortAfter(unit, current, desired, true, d, after, id); }
    }
  }

  lemma PortsAfter(
    unit: Unit, current: SwitchState, desired: SwitchConfig, enforce: bool, d: StateDiff, after: SwitchState)
    requires desired.model.Some? && RefsOk(desired, true) && RowsAgree(desired.ports, HasPoe(desired))
    requires desired.model.value.VendorOf() != Cisco && IsRead(desired.model.value.VendorOf(), desired, current)
    requires IsStateDiff(current, desired, enforce, d)
    requires forall id :: PortObeys(desired.model.value.VendorOf(), unit, HasPoe(desired), current, d, after, id)
    ensures PortsInState(after, desired, enforce) <==> PortsFit(unit, current, desired, enforce)
  {
    DesiredPortsAfter(unit, current, desired, enforce, d, after);
    DestsAfter(unit, current, desired, enforce, d, after);
    if enforce { LeftOversAfter(unit, current, desired, d, after); }
  }

  // ---- VLANs and mirrors ----

  lemma VlanFitsExactly(vendor: Vendor, desired: seq<Vlan>, was: Option<Vlan>, v: Vlan)
    requires was.Some? ==> was.value.id == v.id
    ensures VlanFits(vendor, desired, was, v) <==>
      ShowsAs(was, v, SameVlan(vendor != Aruba), VlanShown(vendor, desired))
  {
  }

  lemma VlansAfter(current: SwitchState, desired: SwitchConfig, enforce: bool, d: StateDiff, after: SwitchState)
    requires desired.model.Some? && desired.model.value.VendorOf() != Cisco && IsStateDiff(current, desired, enforce, d)
    requires var shown := VlanShown(desired.model.value.VendorOf(), desired.vlans);
      Obeys(current.vlans, d.vlans, after.vlans, VLAN_ID, shown)
    ensures Agrees(after.vlans, desired.vlans, VLAN_ID, SameVlan(Describes(desired)), IS_VLAN_1) <==>
      forall v :: IsWritten(current.vlans, desired.vlans, VLAN_ID, SameVlan(Describes(desired)), v) ==>
        VlanFits(desired.model.value.VendorOf(), desired.vlans, FindLast(current.vlans, VLAN_ID, v.id), v)
  {
    var vendor := desired.model.value.VendorOf();
    ObeyedAgreesExactly(current.vlans, desired.vlans, VLAN_ID, SameVlan(Describes(desired)), IS_VLAN_1, d.vlans,
                        after.vlans, VlanShown(vendor, desired.vlans));
    forall v: Vlan { VlanFitsExactly(vendor, desired.vlans, FindLast(current.vlans, VLAN_ID, v.id), v); }
    assert Describes(desired) == (vendor != Aruba);
  }

  lemma FortiMirrorsAfter(
    current: seq<PortMirror>, desired: seq<PortMirror>, d: Changes<string, PortMirror>, after: seq<PortMirror>)
    requires IsDiff(current, desired, SESSION_ID, SAME_MIRROR, Never<string>(), d)
    requires forall m :: m in current ==> m.sourcePorts != []
    requires Obeys(current, d, after, SESSION_ID, FORTI_MIRROR)
    ensures Agrees(after, desired, SESSION_ID, SAME_MIRROR, Never<string>()) <==>
      forall m :: IsWritten(current, desired, SESSION_ID, SAME_MIRROR, m) ==>
        MirrorFits(FindLast(current, SESSION_ID, m.sessionId), m)
  {
    ObeyedAgreesExactly(current, desired, SESSION_ID, SAME_MIRROR, Never<string>(), d, after, FORTI_MIRROR);
    forall m | IsWritten(current, desired, SESSION_ID, SAME_MIRROR, m)
      ensures MirrorFits(FindLast(current, SESSION_ID, m.sessionId), m) <==>
        ShowsAs(FindLast(current, SESSION_ID, m.sessionId), m, SAME_MIRROR, FORTI_MIRROR)
    {
      assert m.sessionId == SESSION_ID(m);
    }
  }

  lemma ArubaMirrorsAfter(
    unit: Unit, current: seq<PortMirror>, desired: seq<PortMirror>, d: Changes<string, PortMirror>,
    after: seq<PortMirror>)
    requires IsDiff(current, desired, SESSION_ID, SAME_MIRROR, Never<string>(), d)
    requires OnlySessionOne(current) && OnlySessionOne(after)
    requires OnlySessionOne(desired) ==> ArubaMirrorsObey(unit, current, d, after)
    ensures Agrees(after, desired, SESSION_ID, SAME_MIRROR, Never<string>()) <==>
      ArubaMirrorsFit(unit, current, desired)
  {
    if OnlySessionOne(desired) {
      SessionOneDecides(after, desired);
      ArubaSession(unit, current, desired, d, after);
    } else {
      var m :| m in desired && m.sessionId != "1";
      var wanted := FindLast(desired, SESSION_ID, m.sessionId);
      assert FindLast(after, SESSION_ID, m.sessionId).None?;
      assert !AgreesAt(after, desired, SESSION_ID, SAME_MIRROR, Never<string>(), m.sessionId);
    }
  }

  lemma SessionOneDecides(after: seq<PortMirror>, desired: seq<PortMirror>)
    requires OnlySessionOne(after) && OnlySessionOne(desired)
    ensures Agrees(after, desired, SESSION_ID, SAME_MIRROR, Never<string>()) <==>
      AgreesAt(after, desired, SESSION_ID, SAME_MIRROR, Never<string>(), "1")
  {
    forall k | k != "1" ensures AgreesAt(after, desired, SESSION_ID, SAME_MIRROR, Never<string>(), k) {
      assert FindLast(desired, SESSION_ID, k).None? && FindLast(after, SESSION_ID, k).None?;
    }
  }

  lemma ArubaSession(
    unit: Unit, current: seq<PortMirror>, desired: seq<PortMirror>, d: Changes<string, PortMirror>,
    after: seq<PortMirror>)
    requires IsDiff(current, desired, SESSION_ID, SAME_MIRROR, Never<string>(), d)
    requires OnlySessionOne(current) && OnlySessionOne(desired) && ArubaMirrorsObey(unit, current, d, after)
    ensures AgreesAt(after, desired, SESSION_ID, SAME_MIRROR, Never<string>(), "1") <==>
      ArubaMirrorsFit(unit, current, desired)
  {
    var m, written := FindLast(desired, SESSION_ID, "1"), FindLast(d.add + d.update, SESSION_ID, "1");
    EmptyOrNot(current);
    assert written.Some? ==> IsWritten(current, desired, SESSION_ID, SAME_MIRROR, written.value);
    assert m.Some? && IsWritten(current, desired, SESSION_ID, SAME_MIRROR, m.value) ==> m.value in d.add + d.update;
    assert "1" in d.remove <==> IsGone(current, desired, SESSION_ID, Never<string>(), "1");
    assert after != [] ==> after[..|after| - 1] == [];
  }

  // ---- the switch as a whole ----

  /** The state read after an apply is the desired one if and only if the apply was not
      refused, the rows of each port agree, the request shows as itself, and SNMP and the
      management VLAN are read as asked for. */
  lemma OneApplyConverges(
    unit: Unit, current: SwitchState, desired: SwitchConfig, enforce: bool, d: StateDiff, after: SwitchState)
    requires desired.model.Some? && RefsOk(desired, true)
    requires IsRead(desired.model.value.VendorOf(), desired, current) && IsStateDiff(current, desired, enforce, d)
    requires Applied(unit, current, desired, d, after)
    ensures InState(after, desired, enforce) <==>
      && !IsRefused(current, desired)
      && RowsAgree(desired.ports, HasPoe(desired))
      && Fits(unit, current, desired, enforce)
      && SnmpInState(after.snmp, EffectiveSnmp(desired)) && after.managementVlan == desired.managementVlan
  {
    var vendor := desired.model.value.VendorOf();
    if IsRefused(current, desired) {
      NothingReadIsNotDesired(current, desired, enforce);
    } else if vendor == Cisco {
      CiscoAfter(desired, enforce, after);
    } else if RowsAgree(desired.ports, HasPoe(desired)) {
      VlansAfter(current, desired, enforce, d, after);
      PortsAfter(unit, current, desired, enforce, d, after);
      MirrorsAfter(unit, current, desired, enforce, d, after);
    } else if InState(after, desired, enforce) {
      InStateNeedsAgreement(after, desired, enforce);
    }
  }

  lemma NothingReadIsNotDesired(s: SwitchState, desired: SwitchConfig, enforce: bool)
    requires IsRefused(s, desired)
    ensures !InState(s, desired, enforce)
  {
    if desired.ports != [] {
      assert !HasSetting(s, desired.ports[0], HasPoe(desired));
    } else {
      var id := VLAN_ID(desired.vlans[0]);
      assert FindLast(desired.vlans, VLAN_ID, id).Some?;
      assert !AgreesAt(s.vlans, desired.vlans, VLAN_ID, SameVlan(Describes(desired)), IS_VLAN_1, id);
    }
  }

  lemma EmptyOrNot<T>(s: seq<T>)
    ensures s == [] || exists x :: x in s
  {
    if s != [] { assert s[0] in s; }
  }

  lemma CiscoAfter(desired: SwitchConfig, enforce: bool, after: SwitchState)
    requires IsRead(Cisco, desired, after)
    ensures InState(after, desired, enforce) <==>
      && desired.vlans == [] && desired.ports == [] && desired.portMirrors == []
      && SnmpInState(after.snmp, EffectiveSnmp(desired)) && after.managementVlan == desired.managementVlan
  {
    EmptyOrNot(after.vlans);
    EmptyOrNot(after.ports);
    EmptyOrNot(after.portMirrors);
    if desired.vlans != [] || desired.ports != [] {
      NothingReadIsNotDesired(after, desired, enforce);
    } else if desired.portMirrors != [] {
      assert !IsDest(after, desired.portMirrors[0].destinationPort);
    }
  }

  lemma MirrorsAfter(
    unit: Unit, current: SwitchState, desired: SwitchConfig, enforce: bool, d: StateDiff, after: SwitchState)
    requires desired.model.Some? && desired.model.value.VendorOf() != Cisco && !IsRefused(current, desired)
    requires IsRead(desired.model.value.VendorOf(), desired, current) && IsStateDiff(current, desired, enforce, d)
    requires Applied(unit, current, desired, d, after)
    ensures Agrees(after.portMirrors, desired.portMirrors, SESSION_ID, SAME_MIRROR, Never<string>()) <==>
      if desired.model.value.VendorOf() == Aruba then ArubaMirrorsFit(unit, current.portMirrors, desired.portMirrors)
      else forall m :: IsWritten(current.portMirrors, desired.portMirrors, SESSION_ID, SAME_MIRROR, m) ==>
        MirrorFits(FindLast(current.portMirrors, SESSION_ID, m.sessionId), m)
  {
    if desired.model.value.VendorOf() == Aruba {
      ArubaMirrorsAfter(unit, current.portMirrors, desired.portMirrors, d.mirrors, after.portMirrors);
    } else {
      FortiMirrorsAfter(current.portMirrors, desired.portMirrors, d.mirrors, after.portMirrors);
    }
  }

  /** With distinct port ids, as every load yields them, rows have nothing to disagree about. */
  lemma DistinctIdsConverge(
    unit: Unit, current: SwitchState, desired: SwitchConfig, enforce: bool, d: StateDiff, after: SwitchState)
    requires desired.model.Some? && RefsOk(desired, true) && DistinctPortIds(desired.ports)
    requires IsRead(desired.model.value.VendorOf(), desired, current) && IsStateDiff(current, desired, enforce, d)
    requires Applied(unit, current, desired, d, after)
    ensures InState(after, desired, enforce) <==>
      && !IsRefused(current, desired) && Fits(unit, current, desired, enforce)
      && SnmpInState(after.snmp, EffectiveSnmp(desired)) && after.managementVlan == desired.managementVlan
  {
    DistinctRowsAgree(desired.ports, HasPoe(desired));
    OneApplyConverges(unit, current, desired, enforce, d, after);
  }

  // ---- migrations ----

  ghost predicate AtMostOneTagged(p: Port, removed: seq<u16>) {
    forall u, v :: u in p.taggedVlans && v in p.taggedVlans && u in removed && v in removed ==> u == v
  }

  lemma {:induction false} MigrationExactly(p: Port, removed: seq<u16>, from: nat)
    requires from <= |removed|
    ensures Migration(p, removed, from).None? <==> forall i :: from <= i < |removed| ==> !Assigned(p, removed[i])
    ensures Migration(p, removed, from).Some? ==>
      var m := Migration(p, removed, from).value;
      && m.portId == p.portId && m.vlanBeingRemoved in removed && Assigned(p, m.vlanBeingRemoved)
      && m.action == if InferredMode(p) == Access then MoveAccessToVlan1
                     else RemoveVlanFromTrunk(WithoutVlans(p.taggedVlans, removed))
    decreases |removed| - from
  {
    if from < |removed| { MigrationExactly(p, removed, from + 1); }
  }

  /** A port as Aruba reads it is on no VLAN that is being removed after its migration exactly
      unless it is a trunk whose native VLAN goes, or of which two tagged VLANs go. */
  lemma MigrationFreesExactly(p: Port, removed: seq<u16>)
    requires ArubaReads(p) && 1 !in removed
    ensures Freed(ArubaMoved(p, removed), removed) <==>
      InferredMode(p) == Access || (p.vlan !in removed && AtMostOneTagged(p, removed))
  {
    MigrationExactly(p, removed, 0);
    if InferredMode(p) == Trunk && Migration(p, removed, 0).Some? {
      var first := Migration(p, removed, 0).value.vlanBeingRemoved;
      if first != p.vlan { ArubaListWithout(p, first); }
    }
  }

  lemma ArubaListWithout(p: Port, first: u16)
    requires ArubaReads(p) && first != p.vlan && first in p.taggedVlans
    ensures var list := ArubaList(p.vlan, WithoutVlans(p.taggedVlans, [first]));
      forall id :: id in list && id != p.vlan <==> id in p.taggedVlans && id != first && id != p.vlan
  {
    var tagged := WithoutVlans(p.taggedVlans, [first]);
    assert forall id :: id in tagged && id != p.vlan ==> id in WithoutVlans(tagged, [p.vlan]);
  }

  // ---- something can be read ----

  function Build<K, R>(keys: seq<K>, f: K -> Option<R>): seq<R> {
    if keys == [] then []
    else
      var last := f(keys[|keys| - 1]);
      Build(keys[..|keys| - 1], f) + if last.Some? then [last.value] else []
  }

  lemma {:induction false} FindLastOfBuild<K, R>(keys: seq<K>, f: K -> Option<R>, key: R -> K, k: K)
    requires forall x :: x in keys && f(x).Some? ==> key(f(x).value) == x
    ensures FindLast(Build(keys, f), key, k) == if k in keys then f(k) else None
    ensures forall r :: r in Build(keys, f) ==> exists x :: x in keys && f(x) == Some(r)
  {
    if keys != [] {
      var front, x := keys[..|keys| - 1], keys[|keys| - 1];
      assert keys == front + [x];
      FindLastOfBuild(front, f, key, k);
      if f(x).Some? { FindLastOfSnoc(Build(front, f), f(x).value, key, k); }
    }
  }

  /** What is shown has the key of what was written, and can be read if the row before it can. */
  ghost predicate ShowsReadably<K, R(!new)>(key: R -> K, shown: (Option<R>, R) -> Option<R>, readable: R -> bool) {
    forall was, r :: shown(was, r).Some? && (was.Some? ==> key(was.value) == key(r) && readable(was.value)) ==>
      key(shown(was, r).value) == key(r) && readable(shown(was, r).value)
  }

  lemma RowsCanObey<K(!new), R(!new)>(
    current: seq<R>, d: Changes<K, R>, key: R -> K, shown: (Option<R>, R) -> Option<R>, readable: R -> bool)
    returns (after: seq<R>)
    requires ShowsReadably(key, shown, readable) && forall r :: r in current ==> readable(r)
    ensures Obeys(current, d, after, key, shown) && forall r :: r in after ==> readable(r)
  {
    var f := (k: K) => RowAfter(current, d, key, shown, k);
    var keys := KeysOf(current, key) + KeysOf(d.add + d.update, key);
    after := Build(keys, f);
    forall k | f(k).Some? ensures key(f(k).value) == k && readable(f(k).value) {
      var was, written := FindLast(current, key, k), FindLast(d.add + d.update, key, k);
      assert was.Some? ==> readable(was.value) && key(was.value) == k;
    }
    forall k ensures FindLast(after, key, k) == RowAfter(current, d, key, shown, k) {
      FindLastOfBuild(keys, f, key, k);
      KeyIsListed(current, key, k);
      KeyIsListed(d.add + d.update, key, k);
    }
    forall r | r in after ensures readable(r) {
      FindLastOfBuild(keys, f, key, key(r));
    }
  }

  lemma KeyIsListed<K, R>(rows: seq<R>, key: R -> K, k: K)
    ensures FindLast(rows, key, k).Some? ==> k in KeysOf(rows, key)
  {
    if FindLast(rows, key, k).Some? {
      var i :| 0 <= i < |rows| && rows[i] == FindLast(rows, key, k).value;
      assert KeysOf(rows, key)[i] == k;
    }
  }

  lemma VlansCanObey(vendor: Vendor, current: SwitchState, desired: SwitchConfig, d: StateDiff)
    returns (vlans: seq<Vlan>)
    requires vendor != Cisco && IsRead(vendor, desired, current)
    ensures Obeys(current.vlans, d.vlans, vlans, VLAN_ID, VlanShown(vendor, desired.vlans))
    ensures forall v :: v in vlans ==> VlanReads(vendor, desired.vlans, v)
  {
    var readable := (v: Vlan) => VlanReads(vendor, desired.vlans, v);
    vlans := RowsCanObey(current.vlans, d.vlans, VLAN_ID, VlanShown(vendor, desired.vlans), readable);
    assert forall v :: v in vlans ==> readable(v);
  }

  function PortAfter(
    vendor: Vendor, unit: Unit, poe: bool, current: seq<Port>, d: StateDiff, id: string): Option<Port>
  {
    var was, written := FindLast(current, PORT_ID, id), FindLast(d.portsToConfigure, PORT_ID, id);
    if id in d.mirrorDestPorts then PortBaseline(vendor, d.vlans.remove, was, id)
    else if id in d.portsToReset && was.Some? then Some(PortReset(vendor, was.value))
    else if written.Some? then PortConfigured(vendor, unit, poe, was, written.value)
    else was
  }

  lemma PortAfterReads(vendor: Vendor, unit: Unit, poe: bool, current: seq<Port>, d: StateDiff, id: string)
    requires vendor != Cisco && forall p :: p in current ==> PortReads(vendor, p)
    ensures var p := PortAfter(vendor, unit, poe, current, d, id);
      p.Some? ==> p.value.portId == id && PortReads(vendor, p.value)
  {
    var was, written := FindLast(current, PORT_ID, id), FindLast(d.portsToConfigure, PORT_ID, id);
    assert was.Some? ==> PortReads(vendor, was.value);
    if id in d.mirrorDestPorts {
      BaselineReads(vendor, d.vlans.remove, was, id);
    } else if vendor == Aruba && written.Some? {
      ArubaListReads(written.value.vlan, written.value.taggedVlans);
    }
  }

  lemma BaselineReads(vendor: Vendor, removed: seq<u16>, was: Option<Port>, id: string)
    requires vendor != Cisco && (was.Some? ==> was.value.portId == id && PortReads(vendor, was.value))
    ensures var p := PortBaseline(vendor, removed, was, id);
      p.Some? ==> p.value.portId == id && PortReads(vendor, p.value)
  {
    var before := if was.Some? then was.value else Factory(id);
    if vendor == Aruba { ArubaListReads(1, WithoutVlans(before.taggedVlans, [before.vlan] + removed)); }
  }

  lemma ArubaListReads(vlan: u16, tagged: seq<u16>)
    ensures var list := ArubaList(vlan, tagged); list == [] || (Ascending(list) && vlan in list && |list| > 1)
  {
    var left, list := WithoutVlans(tagged, [vlan]), ArubaList(vlan, tagged);
    if left != [] { assert left[0] in left && left[0] in list && vlan in list; }
  }

  lemma PortsCanObey(
    vendor: Vendor, unit: Unit, poe: bool, current: SwitchState, desired: SwitchConfig, enforce: bool, d: StateDiff)
    returns (ports: seq<Port>)
    requires vendor != Cisco && IsRead(vendor, desired, current) && IsStateDiff(current, desired, enforce, d)
    ensures forall id :: PortObeys(vendor, unit, poe, current, d, SwitchState([], ports, [], None, None), id)
    ensures forall p :: p in ports ==> PortReads(vendor, p)
  {
    var f := (id: string) => PortAfter(vendor, unit, poe, current.ports, d, id);
    var keys := (KeysOf(current.ports, PORT_ID) + KeysOf(d.portsToConfigure, PORT_ID)) + d.mirrorDestPorts;
    ports := Build(keys, f);
    forall id { PortAfterReads(vendor, unit, poe, current.ports, d, id); }
    forall id ensures PortObeys(vendor, unit, poe, current, d, SwitchState([], ports, [], None, None), id) {
      FindLastOfBuild(keys, f, PORT_ID, id);
      KeyIsListed(current.ports, PORT_ID, id);
      KeyIsListed(d.portsToConfigure, PORT_ID, id);
      assert id in d.portsToReset ==> NeedsReset(current, desired, id);
    }
    FindLastOfBuild(keys, f, PORT_ID, "");
  }

  lemma MirrorsCanObey(vendor: Vendor, unit: Unit, current: SwitchState, desired: SwitchConfig, d: StateDiff)
    returns (mirrors: seq<PortMirror>)
    requires vendor != Cisco && IsRead(vendor, desired, current)
    ensures forall m :: m in mirrors ==> MirrorReads(vendor, m)
    ensures vendor == Aruba ==> |mirrors| <= 1 && ArubaMirrorsObey(unit, current.portMirrors, d.mirrors, mirrors)
    ensures vendor == Fortiswitch ==> Obeys(current.portMirrors, d.mirrors, mirrors, SESSION_ID, FORTI_MIRROR)
  {
    if vendor == Aruba {
      var written := FindLast(d.mirrors.add + d.mirrors.update, SESSION_ID, "1");
      var was := FindLast(current.portMirrors, SESSION_ID, "1");
      var dest := if written.Some? then Some(written.value.destinationPort)
                  else if was.None? || ("1" in d.mirrors.remove && unit.endsSession) then None
                  else Some(was.value.destinationPort);
      mirrors := if dest.None? || unit.monitored == [] then [] else [PortMirror("1", unit.monitored, dest.value, Both)];
    } else {
      var readable := (m: PortMirror) => m.sourcePorts != [];
      mirrors := RowsCanObey(current.portMirrors, d.mirrors, SESSION_ID, FORTI_MIRROR, readable);
      assert forall m :: m in mirrors ==> readable(m);
    }
  }

  /** Whatever was read, there is a state that can be read after the apply. */
  lemma ApplyIsPossible(unit: Unit, current: SwitchState, desired: SwitchConfig, enforce: bool, d: StateDiff)
    returns (after: SwitchState)
    requires desired.model.Some? && IsRead(desired.model.value.VendorOf(), desired, current)
    requires IsStateDiff(current, desired, enforce, d)
    ensures Applied(unit, current, desired, d, after) && IsRead(desired.model.value.VendorOf(), desired, after)
  {
    var vendor := desired.model.value.VendorOf();
    if IsRefused(current, desired) || vendor == Cisco {
      after := current;
    } else {
      var vlans := VlansCanObey(vendor, current, desired, d);
      var ports := PortsCanObey(vendor, unit, HasPoe(desired), current, desired, enforce, d);
      var mirrors := MirrorsCanObey(vendor, unit, current, desired, d);
      after := SwitchState(vlans, ports, mirrors, None, None);
      forall id { PortsAlone(vendor, unit, HasPoe(desired), current, d, after, id); }
    }
  }

  lemma PortsAlone(
    vendor: Vendor, unit: Unit, poe: bool, current: SwitchState, d: StateDiff, after: SwitchState, id: string)
    requires PortObeys(vendor, unit, poe, current, d, SwitchState([], after.ports, [], None, None), id)
    ensures PortObeys(vendor, unit, poe, current, d, after, id)
  {
  }
}
