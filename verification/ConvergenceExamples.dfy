/** For each vendor, a configuration that passes validation and is in no state that can be read
    (switch-configurator/src/vendors/). */
module ConvergenceExamples {
  import opened Basics
  import opened Models
  import opened VlanNames
  import opened PortRange
  import opened Validation
  import opened KeyedDiff
  import opened Diff
  import opened Vendors
  import opened DiffTheorems
  import opened Convergence
  import P = PatchTheorems
  import Store

  const LAN := Vlan(10, "lan", None, NoAddress)
  const LAB := Vlan(20, "lab", None, NoAddress)
  const DMZ := Vlan(30, "dmz", None, NoAddress)

  const VLANS_OF_THREE := [LAN, LAB, DMZ]

  function SwitchOf(model: SwitchModel, ports: seq<Port>, mirrors: seq<PortMirror>): SwitchConfig {
    P.ONE_PORT_SWITCH.(model := Some(model), vlans := VLANS_OF_THREE, ports := ports, portMirrors := mirrors)
  }

  lemma ThreeVlans()
    ensures Unambiguous(VLANS_OF_THREE) && forall v :: v in VLANS_OF_THREE <==> v in {LAN, LAB, DMZ}
  {
    var vs := VLANS_OF_THREE;
    assert vs[0] == LAN && vs[1] == LAB && vs[2] == DMZ;
    assert LAN.name[2] == 'n' && LAB.name[2] == 'b' && DMZ.name[2] == 'z';
    forall i, j | 0 <= i < |vs| && 0 <= j < |vs| && vs[i].name == vs[j].name ensures vs[i].id == vs[j].id {
      assert vs[i].name[2] == vs[j].name[2];
    }
  }

  lemma ThreeNames(model: SwitchModel)
    ensures NameOk(model, LAN) && NameOk(model, LAB) && NameOk(model, DMZ)
  {
    assert Utf8Length("lan") == 3 && Utf8Length("lab") == 3 && Utf8Length("dmz") == 3;
  }

  lemma OnePlain()
    ensures Plain("1") && Plain("2") && "1" != "2" && AllPlain(["1"])
  {
    assert "1"[0] != "2"[0];
  }

  lemma PortIsFine(sw: SwitchConfig, p: Port)
    requires sw.model.Some? && sw.vlans == VLANS_OF_THREE && p.vlan == 10 && p.extras.speedDuplex == Auto
    requires forall id :: id in p.taggedVlans ==> id in {20, 30}
    ensures PortRefsOk(sw, p, true)
  {
    ThreeVlans();
    assert LAN in sw.vlans && LAB in sw.vlans && DMZ in sw.vlans;
    assert Defined(sw, LAN.id) && Defined(sw, LAB.id) && Defined(sw, DMZ.id);
  }

  lemma NamesAreFine(model: SwitchModel)
    ensures forall i :: 0 <= i < |VLANS_OF_THREE| ==> NameOk(model, VLANS_OF_THREE[i])
  {
    ThreeVlans();
    ThreeNames(model);
    assert forall i :: 0 <= i < |VLANS_OF_THREE| ==> VLANS_OF_THREE[i] in VLANS_OF_THREE;
  }

  lemma RefsAreFine(model: SwitchModel, p: Port, mirrors: seq<PortMirror>)
    requires p.portId == "1" && p.vlan == 10 && p.extras.speedDuplex == Auto
    requires forall id :: id in p.taggedVlans ==> id in {20, 30}
    requires forall m :: m in mirrors ==> m.destinationPort == "2"
    ensures RefsOk(SwitchOf(model, [p], mirrors), true)
  {
    NamesAreFine(model);
    OnePlain();
    PortIsFine(SwitchOf(model, [p], mirrors), p);
  }

  /** One port in VLAN 10, and mirror sessions of it to port 2. */
  lemma SwitchIsSettled(env: Secrets, model: SwitchModel, p: Port, mirrors: seq<PortMirror>)
    requires p.portId == "1" && p.vlan == 10 && p.Resolved() && p.extras.speedDuplex == Auto
    requires forall id :: id in p.taggedVlans ==> id in {20, 30}
    requires forall m :: m in mirrors ==> m.sourcePorts == ["1"] && m.destinationPort == "2"
    ensures Settled(env, SwitchOf(model, [p], mirrors))
  {
    ThreeVlans();
    OnePlain();
    RefsAreFine(model, p, mirrors);
    var sw := SwitchOf(model, [p], mirrors);
    assert WellFormed(sw) by { assert forall i :: 0 <= i < |sw.vlans| ==> sw.vlans[i] in VLANS_OF_THREE; }
    assert Expanded(sw) by { assert forall i :: 0 <= i < |mirrors| ==> mirrors[i] in mirrors; }
  }

  const EXTRAS := PortExtras(Access, None, true, false, false, Auto)

  const UNSORTED := SwitchOf(Aruba2530_24G_POE, [Port("1", 10, [30, 20], EXTRAS, None, [])], [])

  /** On Aruba, a port can only be in its desired state if its list ascends. */
  lemma ArubaReadsAscending(s: SwitchState, desired: SwitchConfig, enforce: bool, p: Port)
    requires IsRead(Aruba, desired, s) && InState(s, desired, enforce) && p in desired.ports
    ensures Ascending(WithoutVlans(p.taggedVlans, [p.vlan]))
  {
    var found := FindLast(s.ports, PORT_ID, p.portId);
    assert HasSetting(s, p, HasPoe(desired)) && PortReads(Aruba, found.value);
    WithoutAscends(found.value.taggedVlans, [found.value.vlan]);
  }

  lemma ThirtyTwenty()
    ensures WithoutVlans([30, 20], [10]) == [30, 20] && !Ascending([30, 20])
  {
    var ids: seq<u16> := [30, 20];
    assert ids[0] > ids[1];
    assert ids[..1] == [30] && [30][..0] == [];
  }

  /** Aruba: a port tagged in 30 and 20, in this order, is read with a sorted list. */
  lemma ArubaUnsortedNeverConverges(env: Secrets, s: SwitchState, enforce: bool)
    requires IsRead(Aruba, UNSORTED, s)
    ensures Settled(env, UNSORTED) && !InState(s, UNSORTED, enforce)
  {
    var p := UNSORTED.ports[0];
    SwitchIsSettled(env, Aruba2530_24G_POE, p, []);
    ThirtyTwenty();
    if InState(s, UNSORTED, enforce) { ArubaReadsAscending(s, UNSORTED, enforce, p); }
  }

  const SECOND_SESSION :=
    SwitchOf(Aruba2530_24G_POE, [Port("1", 10, [], EXTRAS, None, [])], [PortMirror("2", ["1"], "2", Both)])

  /** Aruba: whatever its id, a mirror session is read as session 1. */
  lemma ArubaSessionNeverConverges(env: Secrets, s: SwitchState, enforce: bool)
    requires IsRead(Aruba, SECOND_SESSION, s)
    ensures Settled(env, SECOND_SESSION) && !InState(s, SECOND_SESSION, enforce)
  {
    var m := SECOND_SESSION.portMirrors[0];
    SwitchIsSettled(env, Aruba2530_24G_POE, SECOND_SESSION.ports[0], [m]);
    OnePlain();
    assert SECOND_SESSION.portMirrors[..0] == [];
    assert FindLast(SECOND_SESSION.portMirrors, SESSION_ID, "2") == Some(m);
    assert FindLast(s.portMirrors, SESSION_ID, "2").None?;
    assert !AgreesAt(s.portMirrors, SECOND_SESSION.portMirrors, SESSION_ID, SAME_MIRROR, Never<string>(), "2");
  }

  const MAC_NOTIFY := SwitchOf(Fortiswitch124F_FPOE, [Port("1", 10, [], EXTRAS.(macNotify := true), None, [])], [])

  /** FortiSwitch: MAC notification is always read as off. */
  lemma FortiMacNotifyNeverConverges(env: Secrets, s: SwitchState, enforce: bool)
    requires IsRead(Fortiswitch, MAC_NOTIFY, s)
    ensures Settled(env, MAC_NOTIFY) && !InState(s, MAC_NOTIFY, enforce)
  {
    var p := MAC_NOTIFY.ports[0];
    SwitchIsSettled(env, Fortiswitch124F_FPOE, p, []);
    var found := FindLast(s.ports, PORT_ID, "1");
    assert found.Some? ==> PortReads(Fortiswitch, found.value);
    assert !HasSetting(s, p, HasPoe(MAC_NOTIFY));
  }

  const ON_CISCO := SwitchOf(CiscoCatalyst9300_24P_UPOE, [Port("1", 10, [], EXTRAS, None, [])], [])

  /** Cisco: nothing is read but the management VLAN, so every apply of a configuration with a
      VLAN or a port is refused. */
  lemma CiscoIsRefused(env: Secrets, s: SwitchState, enforce: bool)
    requires IsRead(Cisco, ON_CISCO, s)
    ensures Settled(env, ON_CISCO) && IsRefused(s, ON_CISCO) && !InState(s, ON_CISCO, enforce)
  {
    SwitchIsSettled(env, CiscoCatalyst9300_24P_UPOE, ON_CISCO.ports[0], []);
    EmptyOrNot(s.vlans);
    EmptyOrNot(s.ports);
    NothingReadIsNotDesired(s, ON_CISCO, enforce);
  }

  const TRUNK := Port("1", 10, [10, 20, 30], EXTRAS, None, [])

  lemma OneIsNumber()
    ensures IsPortNumber("1")
  {
    assert "1"[..0] == "" && "1"[0..] == "1" && SuffixStart("") == 0;
    assert SuffixStart("1") == 0;
  }

  /** A trunk as Aruba reads it: when VLAN 10 goes it stays the untagged one, and when 20 and 30
      go it is still tagged in 30. */
  lemma MigrationMisses()
    ensures ArubaReads(TRUNK)
    ensures !Freed(ArubaMoved(TRUNK, [10]), [10]) && !Freed(ArubaMoved(TRUNK, [20, 30]), [20, 30])
  {
    OneIsNumber();
    var tagged, removed := TRUNK.taggedVlans, [20, 30];
    assert tagged[0] == 10 && tagged[1] == 20 && tagged[2] == 30 && Ascending(tagged);
    assert removed[0] == 20 && removed[1] == 30;
    assert [10][0] == 10;
    MigrationFreesExactly(TRUNK, [10]);
    MigrationFreesExactly(TRUNK, removed);
  }

  // ---- what a PATCH with a port range leads to ----

  lemma DisagreeingRows(s: SwitchState, desired: SwitchConfig, enforce: bool, p: Port, q: Port)
    requires p in desired.ports && q in desired.ports && p.portId == q.portId && p.vlan != q.vlan
    ensures !InState(s, desired, enforce)
  {
    if InState(s, desired, enforce) {
      InStateNeedsAgreement(s, desired, enforce);
      assert false;
    }
  }

  /** A PATCH with a port range is accepted and leaves two rows that disagree: the switch is
      never in its desired state, before or after any number of applies. */
  lemma RangePatchNeverConverges(env: Secrets, s: SwitchState, enforce: bool)
    ensures Settled(env, P.ONE_PORT_SWITCH)
    ensures Validate(env, Store.Patched(P.ONE_PORT_SWITCH, P.RANGE_PATCH)) == Ok(P.PATCHED_SWITCH)
    ensures !InState(s, P.PATCHED_SWITCH, enforce)
  {
    P.OnePortIsSettled(env);
    P.RangePatchIsAccepted(env);
    assert P.OLD_PORT == P.PATCHED_SWITCH.ports[0] && P.TWO_PORTS[0] == P.PATCHED_SWITCH.ports[1];
    DisagreeingRows(s, P.PATCHED_SWITCH, enforce, P.OLD_PORT, P.TWO_PORTS[0]);
  }
}
