/** What the differences and the desired state are, said on the rows and fields of the
    configuration and of what was read (switch-configurator/src/diff/mod.rs, snmp_reads.rs). */
module DiffMeaning {
  import opened Basics
  import opened Models
  import Merge
  import opened VlanNames
  import opened KeyedDiff
  import opened Diff
  import opened DiffTheorems

  // ---- the communities that are wanted ----

  /** `c` is the service's own community, where it reads by itself: it may only read. */
  ghost predicate IsOwn(desired: SwitchConfig, c: SnmpCommunity) {
    match desired.snmp
    case Some(SnmpConfig(_, _, _, Some(SnmpReads(true, Some(own))))) => c == own.(access := Operator)
    case _ => false
  }

  predicate IsListed(desired: SwitchConfig, name: string) { exists c <- Communities(desired.snmp) :: c.name == name }

  /** Wanted are the listed communities, the last one of a name, and the own one unless its
      name is listed. */
  ghost predicate Wanted(desired: SwitchConfig, c: SnmpCommunity) {
    if IsListed(desired, c.name) then FindLast(Communities(desired.snmp), COMMUNITY_NAME, c.name) == Some(c)
    else IsOwn(desired, c)
  }

  ghost predicate WantedName(desired: SwitchConfig, name: string) {
    IsListed(desired, name) || exists c :: IsOwn(desired, c) && c.name == name
  }

  /** Same access, and the same hosts as often in any order. */
  predicate SameRights(found: SnmpCommunity, c: SnmpCommunity) {
    found.access == c.access && multiset(HostKeys(found.allowedHosts)) == multiset(HostKeys(c.allowedHosts))
  }

  lemma EffectiveIsWanted(desired: SwitchConfig)
    ensures var e := EffectiveSnmp(desired);
      && (e.None? <==> desired.snmp.None?)
      && Receivers(e) == Receivers(desired.snmp) && Traps(e) == Traps(desired.snmp)
      && (forall c :: c in Communities(e) <==>
           c in Communities(desired.snmp) || (IsOwn(desired, c) && !IsListed(desired, c.name)))
      && (forall c :: Wanted(desired, c) <==> FindLast(Communities(e), COMMUNITY_NAME, c.name) == Some(c))
      && (forall name :: WantedName(desired, name) <==> FindLast(Communities(e), COMMUNITY_NAME, name).Some?)
  {
    var e, listed := EffectiveSnmp(desired), Communities(desired.snmp);
    if e != desired.snmp {
      var own := e.value.communities[|listed|];
      assert Communities(e) == listed + [own] && IsOwn(desired, own);
      forall name
        ensures FindLast(listed + [own], COMMUNITY_NAME, name) ==
          if own.name == name then Some(own) else FindLast(listed, COMMUNITY_NAME, name)
      {
        assert (listed + [own])[..|listed|] == listed;
      }
    }
  }

  // ---- SNMP ----

  ghost predicate HasHost(rs: seq<TrapReceiver>, host: string) { exists r :: r in rs && r.host == host }

  /** Every wanted community is there under its name with its rights, and no other name; the
      trap receivers go to the listed hosts, and the traps are the listed ones. */
  ghost predicate SnmpAsWanted(current: Option<SnmpConfig>, desired: SwitchConfig) {
    && (forall c :: Wanted(desired, c) ==>
      var found := FindLast(Communities(current), COMMUNITY_NAME, c.name);
      found.Some? && SameRights(found.value, c))
    && (forall x :: x in Communities(current) ==> WantedName(desired, x.name))
    && (forall host :: HasHost(Receivers(current), host) <==> HasHost(Receivers(desired.snmp), host))
    && (forall t :: t in Traps(current) <==> t in Traps(desired.snmp))
  }

  lemma CommunitiesAsWanted(current: seq<SnmpCommunity>, desired: SwitchConfig)
    ensures Agrees(current, Communities(EffectiveSnmp(desired)), COMMUNITY_NAME, SAME_COMMUNITY, Never<string>()) <==>
      && (forall c :: Wanted(desired, c) ==>
        var found := FindLast(current, COMMUNITY_NAME, c.name); found.Some? && SameRights(found.value, c))
      && (forall x :: x in current ==> WantedName(desired, x.name))
  {
    var e := Communities(EffectiveSnmp(desired));
    EffectiveIsWanted(desired);
    if Agrees(current, e, COMMUNITY_NAME, SAME_COMMUNITY, Never<string>()) {
      forall c | Wanted(desired, c)
        ensures var found := FindLast(current, COMMUNITY_NAME, c.name); found.Some? && SameRights(found.value, c)
      {
        assert AgreesAt(current, e, COMMUNITY_NAME, SAME_COMMUNITY, Never<string>(), c.name);
      }
      forall x | x in current ensures WantedName(desired, x.name) {
        assert AgreesAt(current, e, COMMUNITY_NAME, SAME_COMMUNITY, Never<string>(), x.name);
      }
    } else {
      var name :| !AgreesAt(current, e, COMMUNITY_NAME, SAME_COMMUNITY, Never<string>(), name);
      var wanted := FindLast(e, COMMUNITY_NAME, name);
      if wanted.Some? { assert Wanted(desired, wanted.value); }
    }
  }

  lemma ReceiversAsListed(current: seq<TrapReceiver>, listed: seq<TrapReceiver>)
    ensures Agrees(current, listed, RECEIVER_HOST, SAME_RECEIVER, Never<string>()) <==>
      forall host :: HasHost(current, host) <==> HasHost(listed, host)
  {
    forall host
      ensures AgreesAt(current, listed, RECEIVER_HOST, SAME_RECEIVER, Never<string>(), host) <==>
        (HasHost(current, host) <==> HasHost(listed, host))
    {
      HostFound(current, host);
      HostFound(listed, host);
    }
  }

  lemma TrapsAsListed(current: seq<TrapType>, listed: seq<TrapType>)
    ensures Agrees(current, listed, Itself<TrapType>(), SAME_TRAP, Never<TrapType>()) <==>
      forall t :: t in current <==> t in listed
  {
    forall t
      ensures AgreesAt(current, listed, Itself<TrapType>(), SAME_TRAP, Never<TrapType>(), t) <==>
        (t in current <==> t in listed)
    {
    }
  }

  /** SNMP is in the desired state exactly when it is as wanted. */
  lemma SnmpInStateExactly(current: Option<SnmpConfig>, desired: SwitchConfig)
    ensures SnmpInState(current, EffectiveSnmp(desired)) <==> SnmpAsWanted(current, desired)
  {
    EffectiveIsWanted(desired);
    CommunitiesAsWanted(Communities(current), desired);
    ReceiversAsListed(Receivers(current), Receivers(desired.snmp));
    TrapsAsListed(Traps(current), Traps(desired.snmp));
  }

  lemma HostFound(rs: seq<TrapReceiver>, host: string)
    ensures FindLast(rs, RECEIVER_HOST, host).Some? <==> HasHost(rs, host)
  {
  }

  ghost predicate CommunitiesDiffer(current: Option<SnmpConfig>, desired: SwitchConfig, d: SnmpDiff) {
    && (forall c :: c in d.communities.add <==>
      if current.None? then c in Communities(desired.snmp) || (IsOwn(desired, c) && !IsListed(desired, c.name))
      else Wanted(desired, c) && forall x :: x in Communities(current) ==> x.name != c.name)
    && (forall c :: c in d.communities.update <==>
      var found := FindLast(Communities(current), COMMUNITY_NAME, c.name);
      Wanted(desired, c) && found.Some? && !SameRights(found.value, c))
    && (forall name :: name in d.communities.remove <==>
      (exists x :: x in Communities(current) && x.name == name) && !WantedName(desired, name))
    && (current.Some? && desired.snmp.Some? ==> ByName(d.communities))
  }

  /** Names ascend, by code point. */
  ghost predicate ByName(d: Changes<string, SnmpCommunity>) {
    && (forall i, j :: 0 <= i < j < |d.add| ==> Merge.StringLess(d.add[i].name, d.add[j].name))
    && (forall i, j :: 0 <= i < j < |d.remove| ==> Merge.StringLess(d.remove[i], d.remove[j]))
    && (forall i, j :: 0 <= i < j < |d.update| ==> Merge.StringLess(d.update[i].name, d.update[j].name))
  }

  ghost predicate ReceiversDiffer(current: Option<SnmpConfig>, desired: SwitchConfig, d: SnmpDiff) {
    var was, listed := Receivers(current), Receivers(desired.snmp);
    && (forall host :: host in d.receivers.remove <==> HasHost(was, host) && !HasHost(listed, host))
    && (forall r :: r in d.receivers.add ==> r in listed && !HasHost(was, r.host))
    && (forall host :: HasHost(d.receivers.add, host) <==> HasHost(listed, host) && !HasHost(was, host))
    && (forall r :: r !in d.receivers.update)
  }

  ghost predicate TrapsDiffer(current: Option<SnmpConfig>, desired: SwitchConfig, d: SnmpDiff) {
    var was, listed := Traps(current), Traps(desired.snmp);
    && (forall t :: t in d.traps.add <==> t in listed && t !in was)
    && (forall t :: t in d.traps.remove <==> t in was && t !in listed)
    && (forall t :: t !in d.traps.update)
  }

  /** What is added, changed and removed, community by community, receiver by receiver. */
  lemma SnmpDiffExactly(current: Option<SnmpConfig>, desired: SwitchConfig, d: SnmpDiff)
    requires IsSnmpDiff(current, EffectiveSnmp(desired), d)
    ensures CommunitiesDiffer(current, desired, d) && ReceiversDiffer(current, desired, d)
    ensures TrapsDiffer(current, desired, d)
  {
    EffectiveIsWanted(desired);
    CommunityDiff(current, desired, d);
    ReceiverDiff(current, desired, d);
    TrapDiff(current, desired, d);
  }

  /** No difference for a configuration under which the service reads by itself takes its own
      community away. */
  lemma OwnCommunityStays(
    current: SwitchState, desired: SwitchConfig, enforce: bool, d: StateDiff, own: SnmpCommunity)
    requires IsStateDiff(current, desired, enforce, d)
    requires desired.snmp.Some? && desired.snmp.value.ownReads == Some(SnmpReads(true, Some(own)))
    ensures own.name !in d.snmp.communities.remove
    ensures !IsListed(desired, own.name) && FindLast(Communities(current.snmp), COMMUNITY_NAME, own.name).None? ==>
      own.(access := Operator) in d.snmp.communities.add
  {
    SnmpDiffExactly(current.snmp, desired, d.snmp);
    assert IsOwn(desired, own.(access := Operator));
  }

  lemma KeysOfHas<K(!new), R>(rows: seq<R>, key: R -> K)
    ensures forall k :: k in KeysOf(rows, key) <==> exists r :: r in rows && key(r) == k
  {
    forall k ensures k in KeysOf(rows, key) <==> exists r :: r in rows && key(r) == k {
      if k in KeysOf(rows, key) {
        var i :| 0 <= i < |rows| && KeysOf(rows, key)[i] == k;
        assert rows[i] in rows;
      }
      if r :| r in rows && key(r) == k {
        var i :| 0 <= i < |rows| && rows[i] == r;
        assert KeysOf(rows, key)[i] == k;
      }
    }
  }

  lemma CommunityDiff(current: Option<SnmpConfig>, desired: SwitchConfig, d: SnmpDiff)
    requires IsSnmpDiff(current, EffectiveSnmp(desired), d)
    ensures CommunitiesDiffer(current, desired, d)
  {
    EffectiveIsWanted(desired);
    if current.Some? && desired.snmp.Some? {
      CommunitiesCompared(current.value.communities, desired, d.communities);
    } else {
      KeysOfHas(Communities(current), COMMUNITY_NAME);
      NobodyWanted(desired);
    }
  }

  lemma NobodyWanted(desired: SwitchConfig)
    ensures desired.snmp.None? ==>
      (forall c :: !Wanted(desired, c)) && forall name :: !WantedName(desired, name)
  {
  }

  lemma CommunitiesCompared(current: seq<SnmpCommunity>, desired: SwitchConfig, d: Changes<string, SnmpCommunity>)
    requires
      IsDiff(current, Communities(EffectiveSnmp(desired)), COMMUNITY_NAME, SAME_COMMUNITY, Never<string>(), d)
    ensures forall c :: c in d.add <==> Wanted(desired, c) && forall x :: x in current ==> x.name != c.name
    ensures forall c :: c in d.update <==>
      var found := FindLast(current, COMMUNITY_NAME, c.name);
      Wanted(desired, c) && found.Some? && !SameRights(found.value, c)
    ensures forall name :: name in d.remove <==>
      (exists x :: x in current && x.name == name) && !WantedName(desired, name)
  {
    EffectiveIsWanted(desired);
    forall name ensures FindLast(current, COMMUNITY_NAME, name).Some? <==> exists x :: x in current && x.name == name {}
  }

  lemma ReceiverDiff(current: Option<SnmpConfig>, desired: SwitchConfig, d: SnmpDiff)
    requires IsSnmpDiff(current, EffectiveSnmp(desired), d)
    ensures ReceiversDiffer(current, desired, d)
  {
    EffectiveIsWanted(desired);
    KeysOfHas(Receivers(current), RECEIVER_HOST);
    var r0, r1 := Receivers(current), Receivers(desired.snmp);
    forall host ensures FindLast(r0, RECEIVER_HOST, host).Some? <==> HasHost(r0, host) { HostFound(r0, host); }
    forall host ensures FindLast(r1, RECEIVER_HOST, host).Some? <==> HasHost(r1, host) { HostFound(r1, host); }
    if current.Some? && desired.snmp.Some? {
      assert IsDiff(r0, r1, RECEIVER_HOST, SAME_RECEIVER, Never<string>(), d.receivers);
      forall host | HasHost(r1, host) && !HasHost(r0, host) ensures HasHost(d.receivers.add, host) {
        assert IsNew(r0, r1, RECEIVER_HOST, FindLast(r1, RECEIVER_HOST, host).value);
      }
    }
  }

  lemma TrapDiff(current: Option<SnmpConfig>, desired: SwitchConfig, d: SnmpDiff)
    requires IsSnmpDiff(current, EffectiveSnmp(desired), d)
    ensures TrapsDiffer(current, desired, d)
  {
    EffectiveIsWanted(desired);
    KeysOfHas(Traps(current), Itself<TrapType>());
    var t0, t1 := Traps(current), Traps(desired.snmp);
    forall t ensures FindLast(t0, Itself<TrapType>(), t).Some? <==> t in t0 {}
    forall t ensures FindLast(t1, Itself<TrapType>(), t).Some? <==> t in t1 {}
    if current.Some? && desired.snmp.Some? {
      assert IsDiff(t0, t1, Itself<TrapType>(), SAME_TRAP, Never<TrapType>(), d.traps);
    }
  }

  // ---- VLANs and mirror sessions ----

  /** The models whose VLANs have descriptions, and those that deliver power; a switch without
      a model counts as both. */
  predicate ShowsDescriptions(desired: SwitchConfig) {
    desired.model in {None, Some(Fortiswitch124F_FPOE), Some(CiscoCatalyst9300_24P_UPOE)}
  }

  predicate DeliversPower(desired: SwitchConfig) {
    desired.model in {None, Some(Aruba2530_24G_POE), Some(Aruba2530_8G_POE), Some(Aruba2930F),
                      Some(Fortiswitch124F_FPOE), Some(CiscoCatalyst9300_24P_UPOE)}
  }

  predicate VlanAs(found: Vlan, v: Vlan, descriptions: bool) {
    found.name == v.name && found.ipConfig == v.ipConfig && (descriptions ==> found.description == v.description)
  }

  ghost predicate VlansDiffer(current: seq<Vlan>, desired: SwitchConfig, d: Changes<u16, Vlan>) {
    && (forall v :: v in d.add <==>
      FindLast(desired.vlans, VLAN_ID, v.id) == Some(v) && forall x :: x in current ==> x.id != v.id)
    && (forall v :: v in d.update <==>
      var found := FindLast(current, VLAN_ID, v.id);
      && FindLast(desired.vlans, VLAN_ID, v.id) == Some(v)
      && found.Some? && !VlanAs(found.value, v, ShowsDescriptions(desired)))
    && (forall id :: id in d.remove <==>
      id != 1 && (exists x :: x in current && x.id == id) && forall v :: v in desired.vlans ==> v.id != id)
  }

  ghost predicate VlansAsDesired(current: seq<Vlan>, desired: SwitchConfig) {
    && (forall v: Vlan :: FindLast(desired.vlans, VLAN_ID, v.id) == Some(v) ==>
      var found := FindLast(current, VLAN_ID, v.id);
      found.Some? && VlanAs(found.value, v, ShowsDescriptions(desired)))
    && (forall x :: x in current ==> x.id == 1 || exists v :: v in desired.vlans && v.id == x.id)
  }

  ghost predicate MirrorsDiffer(current: seq<PortMirror>, desired: seq<PortMirror>, d: Changes<string, PortMirror>) {
    && (forall m :: m in d.add <==>
      FindLast(desired, SESSION_ID, m.sessionId) == Some(m) && forall x :: x in current ==> x.sessionId != m.sessionId)
    && (forall m :: m in d.update <==>
      var found := FindLast(current, SESSION_ID, m.sessionId);
      FindLast(desired, SESSION_ID, m.sessionId) == Some(m) && found.Some? && found.value != m)
    && (forall id :: id in d.remove <==>
      (exists x :: x in current && x.sessionId == id) && forall m :: m in desired ==> m.sessionId != id)
  }

  ghost predicate MirrorsAsDesired(current: seq<PortMirror>, desired: seq<PortMirror>) {
    && (forall m: PortMirror :: FindLast(desired, SESSION_ID, m.sessionId) == Some(m) ==>
      FindLast(current, SESSION_ID, m.sessionId) == Some(m))
    && (forall x :: x in current ==> exists m :: m in desired && m.sessionId == x.sessionId)
  }

  lemma ModelsExactly(desired: SwitchConfig)
    ensures (Describes(desired) <==> ShowsDescriptions(desired)) && (HasPoe(desired) <==> DeliversPower(desired))
  {
  }

  lemma AgreesExactly<K(!new), R(!new)>(
    current: seq<R>, desired: seq<R>, key: R -> K, same: (R, R) -> bool, fixed: K -> bool)
    ensures Agrees(current, desired, key, same, fixed) <==>
      && (forall r :: FindLast(desired, key, key(r)) == Some(r) ==>
        var found := FindLast(current, key, key(r)); found.Some? && same(found.value, r))
      && (forall x :: x in current ==> fixed(key(x)) || FindLast(desired, key, key(x)).Some?)
  {
    if Agrees(current, desired, key, same, fixed) {
      forall r | FindLast(desired, key, key(r)) == Some(r)
        ensures var found := FindLast(current, key, key(r)); found.Some? && same(found.value, r)
      {
        assert AgreesAt(current, desired, key, same, fixed, key(r));
      }
      forall x | x in current ensures fixed(key(x)) || FindLast(desired, key, key(x)).Some? {
        assert AgreesAt(current, desired, key, same, fixed, key(x));
      }
    } else {
      var k :| !AgreesAt(current, desired, key, same, fixed, k);
      var wanted, found := FindLast(desired, key, k), FindLast(current, key, k);
      assert wanted.Some? ==> key(wanted.value) == k;
      assert found.Some? ==> key(found.value) == k;
    }
  }

  lemma VlansExactly(current: seq<Vlan>, desired: SwitchConfig, d: Changes<u16, Vlan>)
    ensures Agrees(current, desired.vlans, VLAN_ID, SameVlan(Describes(desired)), IS_VLAN_1) <==>
      VlansAsDesired(current, desired)
    ensures IsDiff(current, desired.vlans, VLAN_ID, SameVlan(Describes(desired)), IS_VLAN_1, d) ==>
      VlansDiffer(current, desired, d)
  {
    ModelsExactly(desired);
    AgreesExactly(current, desired.vlans, VLAN_ID, SameVlan(Describes(desired)), IS_VLAN_1);
  }

  lemma MirrorsExactly(current: seq<PortMirror>, desired: seq<PortMirror>, d: Changes<string, PortMirror>)
    ensures Agrees(current, desired, SESSION_ID, SAME_MIRROR, Never<string>()) <==> MirrorsAsDesired(current, desired)
    ensures IsDiff(current, desired, SESSION_ID, SAME_MIRROR, Never<string>(), d) ==> MirrorsDiffer(current, desired, d)
  {
    AgreesExactly(current, desired, SESSION_ID, SAME_MIRROR, Never<string>());
  }

  // ---- ports ----

  /** The same settings; a native VLAN among the tagged ones does not count. */
  predicate PortAs(found: Port, p: Port, poe: bool) {
    && found.vlan == p.vlan && found.extras.description == p.extras.description
    && found.extras.enabled == p.extras.enabled && found.extras.macNotify == p.extras.macNotify
    && found.extras.speedDuplex == p.extras.speedDuplex && (poe ==> found.extras.poeEnabled == p.extras.poeEnabled)
    && WithoutVlans(found.taggedVlans, [found.vlan]) == WithoutVlans(p.taggedVlans, [p.vlan])
  }

  ghost predicate IsPortAs(current: SwitchState, desired: SwitchConfig, p: Port) {
    var found := FindLast(current.ports, PORT_ID, p.portId);
    found.Some? && PortAs(found.value, p, DeliversPower(desired))
  }

  /** A port the configuration does not mention, not even as a mirror's destination, that is
      not as a port nobody uses. */
  ghost predicate InUseUnlisted(current: SwitchState, desired: SwitchConfig, id: string) {
    var found := FindLast(current.ports, PORT_ID, id);
    && found.Some? && (forall p :: p in desired.ports ==> p.portId != id)
    && (forall m :: m in desired.portMirrors ==> m.destinationPort != id)
    && (found.value.extras.enabled || found.value.vlan != 1 || found.value.taggedVlans != []
        || found.value.extras.macNotify || found.value.extras.description !in {None, Some("")})
  }

  ghost predicate IsMonitorPort(current: SwitchState, id: string) {
    var found := FindLast(current.ports, PORT_ID, id);
    found.Some? && found.value.extras.enabled && found.value.vlan == 1 && found.value.taggedVlans == []
  }

  lemma PortsExactly(current: SwitchState, desired: SwitchConfig)
    ensures forall p :: HasSetting(current, p, HasPoe(desired)) <==> IsPortAs(current, desired, p)
    ensures forall p :: NeedsConfig(current.ports, p, HasPoe(desired)) <==> !IsPortAs(current, desired, p)
    ensures forall id :: NeedsReset(current, desired, id) <==> InUseUnlisted(current, desired, id)
    ensures forall id :: LeftOver(current, desired, id) <==> InUseUnlisted(current, desired, id)
    ensures forall id :: IsDest(current, id) <==> IsMonitorPort(current, id)
    ensures forall id :: NeedsBaseline(current.ports, id) <==> !IsMonitorPort(current, id)
  {
    ModelsExactly(desired);
    forall p ensures NeedsConfig(current.ports, p, HasPoe(desired)) <==> !HasSetting(current, p, HasPoe(desired)) {
      var was := FindLast(current.ports, PORT_ID, p.portId);
      if was.Some? { PortsEquivalentExactly(was.value, p, HasPoe(desired)); }
    }
    forall id ensures NeedsReset(current, desired, id) <==> LeftOver(current, desired, id) {
      HasPortExactly(desired, id);
    }
  }

  // ---- the whole ----

  /** The differences, row by row and field by field. */
  ghost predicate Differences(current: SwitchState, desired: SwitchConfig, enforce: bool, d: StateDiff) {
    && VlansDiffer(current.vlans, desired, d.vlans)
    && (forall p :: p in d.portsToConfigure <==> p in desired.ports && !IsPortAs(current, desired, p))
    && (forall id :: id in d.portsToReset <==> enforce && InUseUnlisted(current, desired, id))
    && MirrorsDiffer(current.portMirrors, desired.portMirrors, d.mirrors)
    && (forall id :: id in d.mirrorDestPorts <==>
      (exists m :: m in desired.portMirrors && m.destinationPort == id) && !IsMonitorPort(current, id))
    && CommunitiesDiffer(current.snmp, desired, d.snmp) && ReceiversDiffer(current.snmp, desired, d.snmp)
    && TrapsDiffer(current.snmp, desired, d.snmp)
    && (d.managementVlanChanged <==> current.managementVlan != desired.managementVlan)
    && (d.managementVlanChanged ==> d.managementVlan == desired.managementVlan)
  }

  ghost predicate IsDesired(s: SwitchState, desired: SwitchConfig, enforce: bool) {
    && VlansAsDesired(s.vlans, desired)
    && (forall p :: p in desired.ports ==> IsPortAs(s, desired, p))
    && (enforce ==> forall id :: !InUseUnlisted(s, desired, id))
    && (forall m :: m in desired.portMirrors ==> IsMonitorPort(s, m.destinationPort))
    && MirrorsAsDesired(s.portMirrors, desired.portMirrors)
    && SnmpAsWanted(s.snmp, desired)
    && s.managementVlan == desired.managementVlan
  }

  lemma DifferencesExactly(current: SwitchState, desired: SwitchConfig, enforce: bool, d: StateDiff)
    requires IsStateDiff(current, desired, enforce, d)
    ensures Differences(current, desired, enforce, d)
  {
    VlansExactly(current.vlans, desired, d.vlans);
    MirrorsExactly(current.portMirrors, desired.portMirrors, d.mirrors);
    SnmpDiffExactly(current.snmp, desired, d.snmp);
    PortsExactly(current, desired);
    ToConfigureHas(current.ports, desired.ports, HasPoe(desired));
    ToBaselineHas(current.ports, desired.portMirrors);
  }

  /** The desired state, which the convergence theorems are about. */
  lemma InStateExactly(s: SwitchState, desired: SwitchConfig, enforce: bool)
    ensures InState(s, desired, enforce) <==> IsDesired(s, desired, enforce)
  {
    VlansExactly(s.vlans, desired, Changes([], [], []));
    MirrorsExactly(s.portMirrors, desired.portMirrors, Changes([], [], []));
    SnmpInStateExactly(s.snmp, desired);
    PortsExactly(s, desired);
  }

  // ---- order and repetition ----

  function HostKey(h: AllowedHost): string { if h == AutoHost then "auto" else h.network }

  lemma {:induction false} HostsCounted(hosts: seq<AllowedHost>, h: AllowedHost)
    requires h != Network("auto") && Network("auto") !in hosts
    ensures multiset(HostKeys(hosts))[HostKey(h)] == multiset(hosts)[h]
  {
    if hosts != [] {
      var front, last := hosts[..|hosts| - 1], hosts[|hosts| - 1];
      HostsCounted(front, h);
      assert hosts == front + [last];
      assert HostKeys(hosts) == HostKeys(front) + [HostKey(last)];
    }
  }

  lemma HostKeysFrom(hosts: seq<AllowedHost>, key: string)
    ensures key in HostKeys(hosts) ==> exists h :: h in hosts && HostKey(h) == key
  {
    if key in HostKeys(hosts) {
      var i :| 0 <= i < |hosts| && HostKeys(hosts)[i] == key;
      assert hosts[i] in hosts && HostKey(hosts[i]) == key;
    }
  }

  /** Comparing the sorted texts of two host lists tells exactly whether one is the other in
      some order; no network is spelled `auto`. */
  lemma SameHostsExactly(a: seq<AllowedHost>, b: seq<AllowedHost>)
    requires Network("auto") !in a && Network("auto") !in b
    ensures multiset(HostKeys(a)) == multiset(HostKeys(b)) <==> multiset(a) == multiset(b)
  {
    forall h | h != Network("auto")
      ensures multiset(HostKeys(a))[HostKey(h)] == multiset(a)[h]
      ensures multiset(HostKeys(b))[HostKey(h)] == multiset(b)[h]
    {
      HostsCounted(a, h);
      HostsCounted(b, h);
    }
    if multiset(HostKeys(a)) == multiset(HostKeys(b)) {
      forall h ensures multiset(a)[h] == multiset(b)[h] {}
    }
    if multiset(a) == multiset(b) {
      forall key ensures multiset(HostKeys(a))[key] == multiset(HostKeys(b))[key] {
        HostKeysFrom(a, key);
        HostKeysFrom(b, key);
        if h :| (h in a || h in b) && HostKey(h) == key { assert h != Network("auto"); }
      }
    }
  }

  lemma WithoutVlansOfOne(id: u16, away: seq<u16>)
    ensures WithoutVlans([id], away) == if id in away then [] else [id]
  {
    assert [id][..0] == [] && WithoutVlans([id][..0], away) == [];
  }

  /** Taking VLANs away keeps the others as often and in the order in which they were. */
  lemma WithoutVlansInOrder(a: seq<u16>, id: u16, b: seq<u16>, away: seq<u16>)
    ensures WithoutVlans(a + [id] + b, away) ==
      WithoutVlans(a, away) + (if id in away then [] else [id]) + WithoutVlans(b, away)
  {
    WithoutVlansOfConcat(a + [id], b, away);
    WithoutVlansOfConcat(a, [id], away);
    WithoutVlansOfOne(id, away);
  }

  lemma {:induction false} WithoutVlansOfConcat(a: seq<u16>, b: seq<u16>, away: seq<u16>)
    ensures WithoutVlans(a + b, away) == WithoutVlans(a, away) + WithoutVlans(b, away)
  {
    if b == [] {
      assert a + b == a;
    } else {
      var front, last := b[..|b| - 1], b[|b| - 1];
      var kept := if last in away then [] else [last];
      assert (a + b)[..|a + b| - 1] == a + front && (a + b)[|a + b| - 1] == last;
      WithoutVlansOfConcat(a, front, away);
      calc {
        WithoutVlans(a + b, away);
        WithoutVlans(a + front, away) + kept;
        WithoutVlans(a, away) + WithoutVlans(front, away) + kept;
        WithoutVlans(a, away) + (WithoutVlans(front, away) + kept);
        WithoutVlans(a, away) + WithoutVlans(b, away);
      }
    }
  }

  /** The ports to configure come in the order of the configuration, each row by itself. */
  lemma {:induction false} ToConfigureInOrder(current: seq<Port>, a: seq<Port>, b: seq<Port>, poe: bool)
    ensures ToConfigure(current, a + b, poe) == ToConfigure(current, a, poe) + ToConfigure(current, b, poe)
  {
    if b == [] {
      assert a + b == a;
    } else {
      assert (a + b)[..|a + b| - 1] == a + b[..|b| - 1];
      ToConfigureInOrder(current, a, b[..|b| - 1], poe);
    }
  }

  /** Where the `m`-th of `ids` is mentioned, the `k`-th was mentioned before. */
  ghost predicate MentionedBefore(ids: seq<string>, mirrors: seq<PortMirror>, k: nat, m: nat, j: nat) {
    k < m < |ids| && MentionedAt(mirrors, j, ids[m]) ==> exists i :: 0 <= i < j && MentionedAt(mirrors, i, ids[k])
  }

  ghost predicate InOrderOfMention(ids: seq<string>, mirrors: seq<PortMirror>) {
    forall k, m, j :: MentionedBefore(ids, mirrors, k, m, j)
  }

  predicate MentionedAt(mirrors: seq<PortMirror>, i: int, id: string) {
    0 <= i < |mirrors| && mirrors[i].destinationPort == id
  }

  /** Destinations come once each, one before another when it is mentioned first. */
  lemma {:induction false} ToBaselineInOrder(current: seq<Port>, mirrors: seq<PortMirror>)
    ensures Distinct(ToBaseline(current, mirrors)) && InOrderOfMention(ToBaseline(current, mirrors), mirrors)
  {
    if mirrors != [] {
      var front, last := mirrors[..|mirrors| - 1], mirrors[|mirrors| - 1];
      assert mirrors == front + [last];
      ToBaselineInOrder(current, front);
      ToBaselineHas(current, front);
      var before, id := ToBaseline(current, front), last.destinationPort;
      if !IsMirrorDest(front, id) && NeedsBaseline(current, id) {
        OneMoreMention(before, front, last, [id]);
      } else {
        OneMoreMention(before, front, last, []);
        assert before + [] == before;
      }
    }
  }

  lemma OneMoreMention(before: seq<string>, front: seq<PortMirror>, last: PortMirror, more: seq<string>)
    requires InOrderOfMention(before, front) && forall id <- before :: IsMirrorDest(front, id)
    requires more == [] || (more == [last.destinationPort] && !IsMirrorDest(front, last.destinationPort))
    ensures InOrderOfMention(before + more, front + [last])
  {
    var ids, mirrors := before + more, front + [last];
    forall k: nat, m: nat, j: nat ensures MentionedBefore(ids, mirrors, k, m, j) {
      if k < m < |ids| && MentionedAt(mirrors, j, ids[m]) {
        assert ids[k] == before[k] && before[k] in before;
        var x :| x in front && x.destinationPort == before[k];
        var i :| 0 <= i < |front| && front[i] == x;
        assert MentionedAt(mirrors, i, ids[k]);
        if j < |front| {
          assert mirrors[j] == front[j] && front[j] in front;
          assert MentionedBefore(before, front, k, m, j);
          var i' :| 0 <= i' < j && MentionedAt(front, i', before[k]);
          assert MentionedAt(mirrors, i', ids[k]);
        }
      }
    }
  }

  // ---- migrations ----

  /** On the VLAN: its untagged one, or among the tagged ones if there are any. */
  predicate IsOn(p: Port, id: u16) { if p.taggedVlans == [] then p.vlan == id else id in p.taggedVlans }

  /** `m` takes `p` off the first VLAN being removed that it is on: an untagged port to VLAN 1,
      a trunk to what stays of its list. */
  ghost predicate Migrates(p: Port, removed: seq<u16>, m: PortMigration) {
    && m.portId == p.portId
    && (exists j :: 0 <= j < |removed| && removed[j] == m.vlanBeingRemoved && IsOn(p, removed[j])
         && forall i :: 0 <= i < j ==> !IsOn(p, removed[i]))
    && (if p.taggedVlans == [] then m.action == MoveAccessToVlan1
        else m.action == RemoveVlanFromTrunk(WithoutVlans(p.taggedVlans, removed)))
  }

  lemma {:induction false} MigrationFrom(p: Port, removed: seq<u16>, from: nat)
    requires from <= |removed| && forall i :: 0 <= i < from ==> !IsOn(p, removed[i])
    ensures var m := Migration(p, removed, from);
      if m.Some? then Migrates(p, removed, m.value) else forall id :: id in removed ==> !IsOn(p, id)
    decreases |removed| - from
  {
    if from < |removed| && !IsOn(p, removed[from]) { MigrationFrom(p, removed, from + 1); }
  }

  ghost predicate MigratedAt(ports: seq<Port>, removed: seq<u16>, ms: seq<PortMigration>, at: seq<nat>) {
    && |at| == |ms|
    && (forall k :: 0 <= k < |at| ==> at[k] < |ports| && Migrates(ports[at[k]], removed, ms[k]))
    && (forall k, m :: 0 <= k < m < |at| ==> at[k] < at[m])
    && (forall i :: 0 <= i < |ports| ==> (i in at <==> exists id :: id in removed && IsOn(ports[i], id)))
  }

  /** Each port that is on a VLAN being removed gets its one migration, in the order of the ports. */
  lemma {:induction false} MigrationsExactly(ports: seq<Port>, removed: seq<u16>) returns (at: seq<nat>)
    ensures MigratedAt(ports, removed, Migrations(ports, removed), at)
  {
    if ports == [] {
      at := [];
    } else {
      var front, last := ports[..|ports| - 1], ports[|ports| - 1];
      assert ports == front + [last];
      var before := MigrationsExactly(front, removed);
      MigrationFrom(last, removed, 0);
      if Migration(last, removed, 0).Some? {
        at := before + [|front|];
        MigratesOneMore(front, removed, Migrations(front, removed), before, last, Migration(last, removed, 0).value);
      } else {
        at := before;
        StaysOneMore(front, removed, Migrations(front, removed), before, last);
        assert Migrations(front, removed) + [] == Migrations(front, removed);
      }
    }
  }

  lemma MigratesOneMore(
    ports: seq<Port>, removed: seq<u16>, ms: seq<PortMigration>, at: seq<nat>, last: Port, m: PortMigration)
    requires MigratedAt(ports, removed, ms, at) && Migrates(last, removed, m)
    ensures MigratedAt(ports + [last], removed, ms + [m], at + [|ports|])
  {
    forall i | 0 <= i < |ports| ensures i in at <==> i in at + [|ports|] {}
    assert |ports| in at + [|ports|];
  }

  lemma StaysOneMore(ports: seq<Port>, removed: seq<u16>, ms: seq<PortMigration>, at: seq<nat>, last: Port)
    requires MigratedAt(ports, removed, ms, at) && forall id :: id in removed ==> !IsOn(last, id)
    ensures MigratedAt(ports + [last], removed, ms, at)
  {
    assert |ports| !in at;
  }
}
