/** The diff is empty exactly on a switch in the desired state
    (switch-configurator/src/diff/mod.rs). */
module DiffTheorems {
  import opened Basics
  import opened Models
  import opened Validation
  import opened KeyedDiff
  import opened Diff
  import opened Vendors

  // ---- what two rows being equivalent means ----

  /** What a port is set to: its mode and a native VLAN among its tagged ones do not count,
      PoE only where the model has it. */
  datatype PortSetting = PortSetting(
    portId: string, vlan: u16, tagged: seq<u16>, description: Option<string>,
    enabled: bool, macNotify: bool, speedDuplex: SpeedDuplex, poe: Option<bool>)

  function SettingOf(p: Port, poe: bool): PortSetting {
    PortSetting(p.portId, p.vlan, WithoutVlans(p.taggedVlans, [p.vlan]), p.extras.description, p.extras.enabled,
                p.extras.macNotify, p.extras.speedDuplex, if poe then Some(p.extras.poeEnabled) else None)
  }

  /** Ports are equivalent exactly when their settings are equal; comparing the inferred modes
      as well changes nothing. */
  lemma PortsEquivalentExactly(a: Port, b: Port, poe: bool)
    ensures PortsEquivalent(a, b, poe) <==> SettingOf(a, poe) == SettingOf(b, poe)
  {
    var x, y := WithoutVlans(a.taggedVlans, [a.vlan]), WithoutVlans(b.taggedVlans, [b.vlan]);
    if x != [] { assert x[0] in a.taggedVlans; }
    if y != [] { assert y[0] in b.taggedVlans; }
  }

  // ---- the desired state ----

  ghost predicate HasSetting(s: SwitchState, p: Port, poe: bool) {
    var found := FindLast(s.ports, PORT_ID, p.portId);
    found.Some? && SettingOf(found.value, poe) == SettingOf(p, poe)
  }

  /** An unlisted port that enforcing does not leave alone. */
  ghost predicate LeftOver(s: SwitchState, desired: SwitchConfig, id: string) {
    var found := FindLast(s.ports, PORT_ID, id);
    && found.Some? && !IsDefault(found.value) && !HasPort(desired, id)
    && !IsMirrorDest(desired.portMirrors, id)
  }

  ghost predicate IsDest(s: SwitchState, id: string) {
    var found := FindLast(s.ports, PORT_ID, id);
    found.Some? && IsBaseline(found.value)
  }

  ghost predicate PortsInState(s: SwitchState, desired: SwitchConfig, enforce: bool) {
    && (forall p :: p in desired.ports ==> HasSetting(s, p, HasPoe(desired)))
    && (enforce ==> forall id :: !LeftOver(s, desired, id))
    && (forall m :: m in desired.portMirrors ==> IsDest(s, m.destinationPort))
  }

  function Communities(s: Option<SnmpConfig>): seq<SnmpCommunity> { if s.None? then [] else s.value.communities }
  function Receivers(s: Option<SnmpConfig>): seq<TrapReceiver> { if s.None? then [] else s.value.trapReceivers }
  function Traps(s: Option<SnmpConfig>): seq<TrapType> { if s.None? then [] else s.value.enabledTraps }

  ghost predicate SnmpInState(current: Option<SnmpConfig>, desired: Option<SnmpConfig>) {
    && Agrees(Communities(current), Communities(desired), COMMUNITY_NAME, SAME_COMMUNITY, Never<string>())
    && Agrees(Receivers(current), Receivers(desired), RECEIVER_HOST, SAME_RECEIVER, Never<string>())
    && Agrees(Traps(current), Traps(desired), Itself<TrapType>(), SAME_TRAP, Never<TrapType>())
  }

  ghost predicate InState(s: SwitchState, desired: SwitchConfig, enforce: bool) {
    && Agrees(s.vlans, desired.vlans, VLAN_ID, SameVlan(Describes(desired)), IS_VLAN_1)
    && PortsInState(s, desired, enforce)
    && Agrees(s.portMirrors, desired.portMirrors, SESSION_ID, SAME_MIRROR, Never<string>())
    && SnmpInState(s.snmp, EffectiveSnmp(desired))
    && s.managementVlan == desired.managementVlan
  }

  // ---- nothing to change exactly there ----

  lemma {:induction false} ToConfigureHas(current: seq<Port>, desired: seq<Port>, poe: bool)
    ensures forall p :: p in ToConfigure(current, desired, poe) <==> p in desired && NeedsConfig(current, p, poe)
  {
    if desired != [] {
      ToConfigureHas(current, desired[..|desired| - 1], poe);
      assert desired == desired[..|desired| - 1] + [desired[|desired| - 1]];
    }
  }

  lemma {:induction false} ToBaselineHas(current: seq<Port>, mirrors: seq<PortMirror>)
    ensures forall id :: id in ToBaseline(current, mirrors) <==> IsMirrorDest(mirrors, id) && NeedsBaseline(current, id)
  {
    if mirrors != [] {
      ToBaselineHas(current, mirrors[..|mirrors| - 1]);
      assert mirrors == mirrors[..|mirrors| - 1] + [mirrors[|mirrors| - 1]];
    }
  }

  lemma HasPortExactly(desired: SwitchConfig, id: string)
    ensures HasPort(desired, id) <==> FindLast(desired.ports, PORT_ID, id).Some?
  {
  }

  lemma PortsNothingExactly(current: SwitchState, desired: SwitchConfig, enforce: bool, d: StateDiff)
    requires IsStateDiff(current, desired, enforce, d)
    ensures d.portsToConfigure == [] && d.portsToReset == [] && d.mirrorDestPorts == []
      <==> PortsInState(current, desired, enforce)
  {
    var poe := HasPoe(desired);
    ToConfigureHas(current.ports, desired.ports, poe);
    ToBaselineHas(current.ports, desired.portMirrors);
    forall p ensures NeedsConfig(current.ports, p, poe) <==> !HasSetting(current, p, poe) {
      var was := FindLast(current.ports, PORT_ID, p.portId);
      if was.Some? { PortsEquivalentExactly(was.value, p, poe); }
    }
    forall id ensures NeedsReset(current, desired, id) <==> LeftOver(current, desired, id) {
      HasPortExactly(desired, id);
    }
    assert forall id :: NeedsBaseline(current.ports, id) <==> !IsDest(current, id);
    if d.portsToConfigure != [] {
      assert !HasSetting(current, d.portsToConfigure[0], poe);
    } else if d.portsToReset != [] {
      assert LeftOver(current, desired, d.portsToReset[0]);
    } else if d.mirrorDestPorts != [] {
      assert !IsDest(current, d.mirrorDestPorts[0]) && IsMirrorDest(desired.portMirrors, d.mirrorDestPorts[0]);
    }
  }

  // ---- rows of which one side has none ----

  lemma AddAllDiffers<K(!new), R(!new)>(rows: seq<R>, key: R -> K, same: (R, R) -> bool, fixed: K -> bool)
    ensures AddAll<K, R>(rows).Nothing() <==> Agrees([], rows, key, same, fixed)
  {
    if rows != [] { assert !AgreesAt([], rows, key, same, fixed, key(rows[0])); }
  }

  lemma RemoveAllDiffers<K(!new), R(!new)>(rows: seq<R>, key: R -> K, same: (R, R) -> bool)
    ensures RemoveAll(rows, key).Nothing() <==> Agrees(rows, [], key, same, Never<K>())
  {
    if rows != [] { assert !AgreesAt(rows, [], key, same, Never<K>(), key(rows[0])); }
  }

  lemma SnmpDiffers(current: Option<SnmpConfig>, desired: Option<SnmpConfig>, d: SnmpDiff)
    requires IsSnmpDiff(current, desired, d)
    ensures !d.HasChanges() <==> SnmpInState(current, desired)
  {
    var c0, c1 := Communities(current), Communities(desired);
    var r0, r1 := Receivers(current), Receivers(desired);
    var t0, t1 := Traps(current), Traps(desired);
    if current.None? {
      AddAllDiffers(c1, COMMUNITY_NAME, SAME_COMMUNITY, Never<string>());
      AddAllDiffers(r1, RECEIVER_HOST, SAME_RECEIVER, Never<string>());
      AddAllDiffers(t1, Itself<TrapType>(), SAME_TRAP, Never<TrapType>());
    } else if desired.None? {
      RemoveAllDiffers(c0, COMMUNITY_NAME, SAME_COMMUNITY);
      RemoveAllDiffers(r0, RECEIVER_HOST, SAME_RECEIVER);
      RemoveAllDiffers(t0, Itself<TrapType>(), SAME_TRAP);
    } else {
      NothingExactly(c0, c1, COMMUNITY_NAME, SAME_COMMUNITY, Never<string>(), d.communities);
      NothingExactly(r0, r1, RECEIVER_HOST, SAME_RECEIVER, Never<string>(), d.receivers);
      NothingExactly(t0, t1, Itself<TrapType>(), SAME_TRAP, Never<TrapType>(), d.traps);
    }
  }

  /** Nothing is sent to a switch exactly when it is in the desired state. */
  lemma DiffIsEmptyExactly(current: SwitchState, desired: SwitchConfig, enforce: bool, d: StateDiff)
    requires IsStateDiff(current, desired, enforce, d)
    ensures !d.HasChanges() <==> InState(current, desired, enforce)
  {
    NothingExactly(current.vlans, desired.vlans, VLAN_ID, SameVlan(Describes(desired)), IS_VLAN_1, d.vlans);
    PortsNothingExactly(current, desired, enforce, d);
    NothingExactly(current.portMirrors, desired.portMirrors, SESSION_ID, SAME_MIRROR, Never<string>(), d.mirrors);
    SnmpDiffers(current.snmp, EffectiveSnmp(desired), d.snmp);
  }

  datatype Plan = Refused | NothingToDo | Send(diff: StateDiff)

  /** `apply_configuration` up to the first command: refused when nothing was read although
      there should be something, otherwise nothing is sent exactly in the desired state. */
  method PlanApply(current: SwitchState, desired: SwitchConfig, enforce: bool) returns (plan: Plan)
    ensures plan.Refused? <==>
      current.vlans == [] && current.ports == [] && (desired.vlans != [] || desired.ports != [])
    ensures plan.NothingToDo? <==> !plan.Refused? && InState(current, desired, enforce)
    ensures plan.Send? ==> IsStateDiff(current, desired, enforce, plan.diff)
  {
    if IsRefused(current, desired) { return Refused; }
    var d := ComputeDiff(current, desired, enforce);
    DiffIsEmptyExactly(current, desired, enforce, d);
    plan := if d.HasChanges() then Send(d) else NothingToDo;
  }

  /** Rows of one port ask for the same. */
  ghost predicate RowsAgree(ports: seq<Port>, poe: bool) {
    forall p, q :: p in ports && q in ports && p.portId == q.portId ==> SettingOf(p, poe) == SettingOf(q, poe)
  }

  lemma DistinctRowsAgree(ports: seq<Port>, poe: bool)
    requires DistinctPortIds(ports)
    ensures RowsAgree(ports, poe)
  {
  }

  lemma InStateNeedsAgreement(s: SwitchState, desired: SwitchConfig, enforce: bool)
    requires InState(s, desired, enforce)
    ensures RowsAgree(desired.ports, HasPoe(desired))
  {
    forall p, q | p in desired.ports && q in desired.ports && p.portId == q.portId
      ensures SettingOf(p, HasPoe(desired)) == SettingOf(q, HasPoe(desired))
    {
      assert HasSetting(s, p, HasPoe(desired)) && HasSetting(s, q, HasPoe(desired));
    }
  }
}
