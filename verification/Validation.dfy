/** Validating one switch (switch-configurator/src/config.rs, secrets.rs,
    allowed_hosts.rs): the chain PUT, PATCH and single-file loading run, and the
    stricter one for saved overlays. */
module Validation {
  import opened Basics
  import opened Models
  import opened VlanNames
  import opened PortRange

  // ---- SNMP secrets and vendor limits ----

  /** Where secret strings come from. The model only needs that it does not change. */
  datatype Secrets = Secrets(file: string -> Option<string>, credential: string -> Option<string>)

  predicate IsControl(c: char) { (c as int) < 0x20 || 0x7F <= c as int < 0xA0 }

  /** `validate_value`: usable on a switch CLI. */
  function UsableSecret(raw: Option<string>): Option<string> {
    if raw.None? then None
    else
      var value := TrimLineEnds(raw.value);
      if value == [] || exists c <- value :: c == '"' || IsControl(c) then None else Some(value)
  }

  predicate HasReference(c: SnmpCommunity) { c.nameFile.Some? || c.nameCredential.Some? }

  /** `check_snmp_secret_sources` for one community. */
  predicate NamesASource(c: SnmpCommunity) {
    !(c.nameFile.Some? && c.nameCredential.Some?) && (c.name != "" || HasReference(c))
  }

  predicate CredentialIdOk(id: string) {
    id != "" && id != "." && id != ".." && '/' !in id && '\0' !in id
  }

  function SecretOf(env: Secrets, c: SnmpCommunity): Option<string> {
    if c.nameFile.Some? then UsableSecret(env.file(c.nameFile.value))
    else if c.nameCredential.Some? && CredentialIdOk(c.nameCredential.value)
    then UsableSecret(env.credential(c.nameCredential.value))
    else None
  }

  /** Read a referenced community string; one that is already there must agree. */
  function ResolveCommunity(env: Secrets, c: SnmpCommunity): Result<SnmpCommunity> {
    if !NamesASource(c) then Err
    else if !HasReference(c) then Ok(c)
    else
      match SecretOf(env, c)
      case None => Err
      case Some(value) => if c.name != "" && c.name != value then Err else Ok(c.(name := value))
  }

  predicate CommunitiesResolve(env: Secrets, cs: seq<SnmpCommunity>) {
    forall i :: 0 <= i < |cs| ==> ResolveCommunity(env, cs[i]).Ok?
  }

  function ResolveCommunities(env: Secrets, cs: seq<SnmpCommunity>): (r: seq<SnmpCommunity>)
    requires CommunitiesResolve(env, cs)
    ensures |r| == |cs|
  {
    seq(|cs|, i requires 0 <= i < |cs| => ResolveCommunity(env, cs[i]).value)
  }

  /** The service's own read community, where it is switched on. */
  predicate ReadsEnabled(snmp: Option<SnmpConfig>) {
    snmp.Some? && snmp.value.ownReads.Some? && snmp.value.ownReads.value.autoMode &&
      snmp.value.ownReads.value.community.Some?
  }

  predicate SnmpResolves(env: Secrets, snmp: Option<SnmpConfig>) {
    snmp.Some? ==>
      && CommunitiesResolve(env, snmp.value.communities)
      && (ReadsEnabled(snmp) ==> ResolveCommunity(env, snmp.value.ownReads.value.community.value).Ok?)
  }

  function ResolveSnmp(env: Secrets, snmp: Option<SnmpConfig>): Option<SnmpConfig>
    requires SnmpResolves(env, snmp)
  {
    if snmp.None? then None
    else
      var s := snmp.value.(communities := ResolveCommunities(env, snmp.value.communities));
      if !ReadsEnabled(snmp) then Some(s)
      else
        var own := s.ownReads.value;
        Some(s.(ownReads := Some(own.(community := Some(ResolveCommunity(env, own.community.value).value)))))
  }

  predicate SourcesNamed(snmp: Option<SnmpConfig>) {
    snmp.Some? ==>
      && (forall i :: 0 <= i < |snmp.value.communities| ==> NamesASource(snmp.value.communities[i]))
      && (ReadsEnabled(snmp) ==> NamesASource(snmp.value.ownReads.value.community.value))
  }

  /** `check_vendor_support`. */
  predicate VendorSupports(sw: SwitchConfig) {
    sw.model.Some? && sw.model.value.VendorOf() != Fortiswitch ==>
      && !ReadsEnabled(sw.snmp)
      && (sw.snmp.Some? ==> forall i :: 0 <= i < |sw.snmp.value.communities| ==>
        sw.snmp.value.communities[i].allowedHosts == [])
  }

  lemma SnmpSettles(env: Secrets, sw: SwitchConfig)
    requires SnmpResolves(env, sw.snmp)
    ensures var sw' := sw.(snmp := ResolveSnmp(env, sw.snmp));
      SnmpResolves(env, sw'.snmp) && ResolveSnmp(env, sw'.snmp) == sw'.snmp &&
        (VendorSupports(sw) ==> VendorSupports(sw'))
  {
    if sw.snmp.Some? {
      var cs := sw.snmp.value.communities;
      var cs' := ResolveCommunities(env, cs);
      assert forall i :: 0 <= i < |cs'| ==> ResolveCommunity(env, cs'[i]) == Ok(cs'[i]);
      assert ResolveCommunities(env, cs') == cs';
    }
  }

  // ---- structure ----

  predicate RequiredFields(sw: SwitchConfig) {
    sw.hostname.Some? && sw.model.Some? && sw.managementIp.Some? && sw.credentials.Some?
  }

  predicate ValidVlanId(id: u16) { 1 <= id <= 4094 }

  /** The derived `validate()`: lengths and number ranges. */
  predicate WellFormed(sw: SwitchConfig) {
    && sw.id != ""
    && (forall i :: 0 <= i < |sw.vlans| ==> ValidVlanId(sw.vlans[i].id))
    && (forall i :: 0 <= i < |sw.ports| ==> ValidVlanId(sw.ports[i].vlan))
  }

  // ---- references ----

  function Utf8Length(s: string): nat {
    if s == [] then 0 else Utf8Size(s[0]) + Utf8Length(s[1..])
  }

  function Utf8Size(c: char): nat {
    var n := c as int;
    if n < 0x80 then 1 else if n < 0x800 then 2 else if n < 0x1_0000 then 3 else 4
  }

  /** Some digit, hyphen, digit in a row. */
  predicate LooksLikeRange(name: string) {
    exists i :: 1 <= i < |name| - 1 && name[i] == '-' && IsDigit(name[i - 1]) && IsDigit(name[i + 1])
  }

  predicate NameOk(model: SwitchModel, v: Vlan) {
    Utf8Length(v.name) <= model.MaxVlanNameLength() && !LooksLikeRange(v.name)
  }

  predicate Defined(sw: SwitchConfig, id: u16)
    requires sw.model.Some?
  {
    id in sw.model.value.ImplicitVlans() || exists v <- sw.vlans :: v.id == id
  }

  function KeepDefined(sw: SwitchConfig, ids: seq<u16>): seq<u16>
    requires sw.model.Some?
  {
    if ids == [] then []
    else
      var front := KeepDefined(sw, ids[..|ids| - 1]);
      if Defined(sw, ids[|ids| - 1]) then front + [ids[|ids| - 1]] else front
  }

  predicate HasPort(sw: SwitchConfig, id: string) { exists p <- sw.ports :: p.portId == id }

  predicate PortRefsOk(sw: SwitchConfig, p: Port, strict: bool)
    requires sw.model.Some?
  {
    && Defined(sw, p.vlan)
    && sw.model.value.SupportsSpeed(p.extras.speedDuplex)
    && (strict ==> forall id :: id in p.taggedVlans ==> Defined(sw, id))
  }

  predicate RefsOk(sw: SwitchConfig, strict: bool)
    requires sw.model.Some?
  {
    && (forall i :: 0 <= i < |sw.vlans| ==> NameOk(sw.model.value, sw.vlans[i]))
    && (forall i :: 0 <= i < |sw.ports| ==> PortRefsOk(sw, sw.ports[i], strict))
    && (forall i :: 0 <= i < |sw.portMirrors| ==> !HasPort(sw, sw.portMirrors[i].destinationPort))
  }

  function FilteredPorts(sw: SwitchConfig): (r: seq<Port>)
    requires sw.model.Some?
    ensures |r| == |sw.ports|
  {
    seq(|sw.ports|,
      i requires 0 <= i < |sw.ports| => sw.ports[i].(taggedVlans := KeepDefined(sw, sw.ports[i].taggedVlans)))
  }

  /** `validate_vlan_references_inner`. */
  function CheckRefs(sw: SwitchConfig, strict: bool): Result<SwitchConfig>
    requires sw.model.Some?
  {
    if !RefsOk(sw, strict) then Err
    else Ok(if strict then sw else sw.(ports := FilteredPorts(sw)))
  }

  method ValidateVlanReferences(sw: SwitchConfig, strict: bool) returns (r: Result<SwitchConfig>)
    requires sw.model.Some?
    ensures r == CheckRefs(sw, strict)
  {
    for i := 0 to |sw.vlans|
      invariant forall k :: 0 <= k < i ==> NameOk(sw.model.value, sw.vlans[k])
    {
      if !NameOk(sw.model.value, sw.vlans[i]) { return Err; }
    }
    var hasErrors := false;
    var ports := sw.ports;
    for i := 0 to |ports|
      invariant |ports| == |sw.ports|
      invariant !hasErrors <==> forall k :: 0 <= k < i ==> PortRefsOk(sw, sw.ports[k], strict)
      invariant strict ==> ports == sw.ports
      invariant !strict ==> forall k :: 0 <= k < i ==> ports[k] == FilteredPorts(sw)[k]
      invariant forall k :: i <= k < |ports| ==> ports[k] == sw.ports[k]
    {
      if !PortRefsOk(sw, ports[i], strict) { hasErrors := true; }
      if !strict {
        var valid := FilterDefined(sw, ports[i].taggedVlans);
        ports := ports[i := ports[i].(taggedVlans := valid)];
      }
    }
    for i := 0 to |sw.portMirrors|
      invariant hasErrors <==>
        (exists k :: 0 <= k < |sw.ports| && !PortRefsOk(sw, sw.ports[k], strict))
        || (exists k :: 0 <= k < i && HasPort(sw, sw.portMirrors[k].destinationPort))
    {
      if HasPort(sw, sw.portMirrors[i].destinationPort) { hasErrors := true; }
    }
    if hasErrors { return Err; }
    assert !strict ==> ports == FilteredPorts(sw);
    r := Ok(sw.(ports := ports));
  }

  method FilterDefined(sw: SwitchConfig, ids: seq<u16>) returns (r: seq<u16>)
    requires sw.model.Some?
    ensures r == KeepDefined(sw, ids)
  {
    r := [];
    for k := 0 to |ids|
      invariant r == KeepDefined(sw, ids[..k])
    {
      assert ids[..k + 1][..k] == ids[..k];
      if Defined(sw, ids[k]) { r := r + [ids[k]]; }
    }
    assert ids[..|ids|] == ids;
  }

  lemma {:induction false} KeepDefinedKeeps(sw: SwitchConfig, ids: seq<u16>)
    requires sw.model.Some?
    ensures forall id :: id in KeepDefined(sw, ids) <==> id in ids && Defined(sw, id)
    ensures (forall id :: id in ids ==> Defined(sw, id)) ==> KeepDefined(sw, ids) == ids
  {
    if ids != [] {
      KeepDefinedKeeps(sw, ids[..|ids| - 1]);
      assert ids == ids[..|ids| - 1] + [ids[|ids| - 1]];
    }
  }

  lemma {:induction false} KeepDefinedSame(a: SwitchConfig, b: SwitchConfig, ids: seq<u16>)
    requires a.model.Some? && b.model == a.model && b.vlans == a.vlans
    ensures KeepDefined(a, ids) == KeepDefined(b, ids)
  {
    if ids != [] { KeepDefinedSame(a, b, ids[..|ids| - 1]); }
  }

  /** A port with its names resolved and its undefined tagged VLANs dropped. */
  function Finish(sw: SwitchConfig, p: Port): Port
    requires sw.model.Some? && ResolvePort(sw.vlans, p, false).Ok?
  {
    var q := ResolvePort(sw.vlans, p, false).value;
    q.(taggedVlans := KeepDefined(sw, q.taggedVlans))
  }

  // ---- the whole chain ----

  /** `validate_switch_config`. */
  function Validate(env: Secrets, sw: SwitchConfig): Result<SwitchConfig> {
    match Expand(sw)
    case Err => Err
    case Ok(sw1) =>
      if !RequiredFields(sw1) || !WellFormed(sw1) || !SnmpResolves(env, sw1.snmp) then Err
      else
        var sw2 := sw1.(snmp := ResolveSnmp(env, sw1.snmp));
        if !VendorSupports(sw2) then Err
        else
          match Resolve(sw2, false)
          case Err => Err
          case Ok(sw3) => CheckRefs(sw3, false)
  }

  method ValidateSwitchConfig(env: Secrets, sw: SwitchConfig) returns (r: Result<SwitchConfig>)
    ensures r == Validate(env, sw)
  {
    r := ExpandPortRanges(sw);
    if r.Err? { return; }
    if !RequiredFields(r.value) || !WellFormed(r.value) || !SnmpResolves(env, r.value.snmp) { return Err; }
    r := Ok(r.value.(snmp := ResolveSnmp(env, r.value.snmp)));
    if !VendorSupports(r.value) { return Err; }
    r := ResolveVlanNames(r.value, false);
    if r.Err? { return; }
    r := ValidateVlanReferences(r.value, false);
  }

  /** What an accepted switch is: nothing left to expand, read or resolve, and every
      reference defined. */
  predicate ReferenceClosed(sw: SwitchConfig) {
    && RequiredFields(sw) && WellFormed(sw) && Expanded(sw) && VendorSupports(sw)
    && Unambiguous(sw.vlans)
    && (forall i :: 0 <= i < |sw.ports| ==> sw.ports[i].Resolved())
    && RefsOk(sw, true)
  }

  predicate Settled(env: Secrets, sw: SwitchConfig) {
    ReferenceClosed(sw) && SnmpResolves(env, sw.snmp) && ResolveSnmp(env, sw.snmp) == sw.snmp
  }

  lemma ResolveKeepsStructure(sw: SwitchConfig, strict: bool)
    requires Resolve(sw, strict).Ok? && WellFormed(sw) && Expanded(sw)
    ensures var r := Resolve(sw, strict).value; WellFormed(r) && Expanded(r) && r == sw.(ports := r.ports)
  {
    forall i | 0 <= i < |sw.ports|
      ensures ValidVlanId(Resolve(sw, strict).value.ports[i].vlan)
      ensures Plain(Resolve(sw, strict).value.ports[i].portId)
    {
      var p := sw.ports[i];
      assert ResolvePort(sw.vlans, p, strict).Ok?;
      if p.vlanName.Some? { IdOfIsARow(sw.vlans, p.vlanName.value); }
    }
  }

  /** Checking references leniently makes them strictly right. */
  lemma CheckRefsCloses(sw: SwitchConfig)
    requires sw.model.Some? && CheckRefs(sw, false).Ok?
    ensures var r := CheckRefs(sw, false).value;
      && r.model == sw.model && RefsOk(r, true)
      && forall i :: 0 <= i < |sw.ports| ==>
           r.ports[i] == sw.ports[i].(taggedVlans := KeepDefined(sw, sw.ports[i].taggedVlans))
  {
    var r := CheckRefs(sw, false).value;
    forall id: u16 ensures Defined(r, id) == Defined(sw, id) {}
    forall i | 0 <= i < |r.ports| ensures PortRefsOk(r, r.ports[i], true) {
      assert PortRefsOk(sw, sw.ports[i], false);
      KeepDefinedKeeps(sw, sw.ports[i].taggedVlans);
    }
    forall id: string | HasPort(r, id) ensures HasPort(sw, id) {
      var p :| p in r.ports && p.portId == id;
      var i :| 0 <= i < |r.ports| && r.ports[i] == p;
      assert sw.ports[i].portId == id;
    }
  }

  /** An accepted switch is settled, with the identity, VLANs and port ids it had after expansion. */
  lemma ValidateSettles(env: Secrets, sw: SwitchConfig)
    requires Validate(env, sw).Ok?
    ensures Settled(env, Validate(env, sw).value)
    ensures Validate(env, sw).value.id == sw.id && Validate(env, sw).value.vlans == sw.vlans
  {
    var sw1 := Expand(sw).value;
    ExpandMakesExpanded(sw);
    var sw2 := sw1.(snmp := ResolveSnmp(env, sw1.snmp));
    SnmpSettles(env, sw1);
    SettleRest(env, sw2);
  }

  /** The last two steps, as reloading runs them too. */
  lemma SettleRest(env: Secrets, sw: SwitchConfig)
    requires RequiredFields(sw) && WellFormed(sw) && Expanded(sw) && VendorSupports(sw)
    requires SnmpResolves(env, sw.snmp) && ResolveSnmp(env, sw.snmp) == sw.snmp
    requires Resolve(sw, false).Ok? && CheckRefs(Resolve(sw, false).value, false).Ok?
    ensures Settled(env, CheckRefs(Resolve(sw, false).value, false).value)
  {
    var sw3 := Resolve(sw, false).value;
    ResolveKeepsStructure(sw, false);
    ResolveSettles(sw, false, false);
    CheckRefsCloses(sw3);
  }

  /** A settled switch passes and is not changed. */
  lemma SettledIsFixed(env: Secrets, sw: SwitchConfig)
    requires Settled(env, sw)
    ensures Validate(env, sw) == Ok(sw)
  {
    ExpandedStaysPut(sw);
    assert sw.(snmp := ResolveSnmp(env, sw.snmp)) == sw;
    forall i | 0 <= i < |sw.ports| ensures ResolvePort(sw.vlans, sw.ports[i], false) == Ok(sw.ports[i]) {
      assert sw.ports[i].Resolved();
    }
    assert ResolvePorts(sw.vlans, sw.ports, false) == sw.ports;
    assert Resolve(sw, false) == Ok(sw);
    RefsOkFixed(sw);
  }

  lemma RefsOkFixed(sw: SwitchConfig)
    requires sw.model.Some? && RefsOk(sw, true)
    ensures CheckRefs(sw, false) == Ok(sw)
  {
    forall i | 0 <= i < |sw.ports| ensures PortRefsOk(sw, sw.ports[i], false) && FilteredPorts(sw)[i] == sw.ports[i] {
      assert PortRefsOk(sw, sw.ports[i], true);
      KeepDefinedKeeps(sw, sw.ports[i].taggedVlans);
    }
    assert FilteredPorts(sw) == sw.ports;
  }

  /** `validate_switch_config` is a projection: on what it accepted it accepts again and
      changes nothing; and it leaves alone exactly the settled switches. */
  lemma ValidateIsProjection(env: Secrets, sw: SwitchConfig)
    ensures Validate(env, sw).Ok? ==> Validate(env, Validate(env, sw).value) == Validate(env, sw)
    ensures Validate(env, sw) == Ok(sw) <==> Settled(env, sw)
  {
    if Validate(env, sw).Ok? {
      ValidateSettles(env, sw);
      SettledIsFixed(env, Validate(env, sw).value);
    }
    if Settled(env, sw) { SettledIsFixed(env, sw); }
  }

  // ---- overlays ----

  predicate DistinctVlanIds(vlans: seq<Vlan>) {
    forall i, j :: 0 <= i < j < |vlans| ==> vlans[i].id != vlans[j].id
  }

  predicate DistinctPortIds(ports: seq<Port>) {
    forall i, j :: 0 <= i < j < |ports| ==> ports[i].portId != ports[j].portId
  }

  /** A VLAN an overlay may refer to: its own, one that another source owns, or one that
      always exists on the model (VLAN 1 without a model). */
  predicate Referable(sw: SwitchConfig, external: set<u16>, id: u16) {
    || (exists v <- sw.vlans :: v.id == id)
    || id in external
    || (if sw.model.Some? then id in sw.model.value.ImplicitVlans() else id == 1)
  }

  predicate OverlayRefsOk(sw: SwitchConfig, external: set<u16>) {
    && (forall i :: 0 <= i < |sw.ports| ==>
          Referable(sw, external, sw.ports[i].vlan) && forall id :: id in sw.ports[i].taggedVlans ==>
            Referable(sw, external, id))
    && (forall i :: 0 <= i < |sw.portMirrors| ==> !HasPort(sw, sw.portMirrors[i].destinationPort))
  }

  /** `validate_overlay_config`. */
  function ValidateOverlay(sw: SwitchConfig, external: set<u16>): Result<SwitchConfig> {
    if !SourcesNamed(sw.snmp) || !VendorSupports(sw) then Err
    else
      match Expand(sw)
      case Err => Err
      case Ok(sw1) =>
        if !DistinctVlanIds(sw1.vlans) || !(forall i :: 0 <= i < |sw1.vlans| ==> ValidVlanId(sw1.vlans[i].id)) then Err
        else if !DistinctPortIds(sw1.ports) then Err
        else
          match Resolve(sw1, true)
          case Err => Err
          case Ok(sw2) => if OverlayRefsOk(sw2, external) then Ok(sw2) else Err
  }

  method ValidateOverlayConfig(sw: SwitchConfig, external: set<u16>) returns (r: Result<SwitchConfig>)
    ensures r == ValidateOverlay(sw, external)
  {
    if !SourcesNamed(sw.snmp) || !VendorSupports(sw) { return Err; }
    var expanded := ExpandPortRanges(sw);
    if expanded.Err? { return Err; }
    var vlansOk := VlanIdsOk(expanded.value.vlans);
    if !vlansOk { return Err; }
    var portsOk := PortIdsOk(expanded.value.ports);
    if !portsOk { return Err; }
    r := ResolveVlanNames(expanded.value, true);
    if r.Ok? && !OverlayRefsOk(r.value, external) { return Err; }
  }

  method VlanIdsOk(vlans: seq<Vlan>) returns (ok: bool)
    ensures ok <==> DistinctVlanIds(vlans) && forall i :: 0 <= i < |vlans| ==> ValidVlanId(vlans[i].id)
  {
    var seen: set<u16> := {};
    for i := 0 to |vlans|
      invariant forall j, k :: 0 <= j < k < i ==> vlans[j].id != vlans[k].id
      invariant forall k :: 0 <= k < i ==> ValidVlanId(vlans[k].id)
      invariant forall id :: id in seen <==> exists k :: 0 <= k < i && vlans[k].id == id
    {
      if vlans[i].id in seen || !ValidVlanId(vlans[i].id) { return false; }
      seen := seen + {vlans[i].id};
    }
    ok := true;
  }

  method PortIdsOk(ports: seq<Port>) returns (ok: bool)
    ensures ok <==> DistinctPortIds(ports)
  {
    var seen: set<string> := {};
    for i := 0 to |ports|
      invariant forall j, k :: 0 <= j < k < i ==> ports[j].portId != ports[k].portId
      invariant forall id :: id in seen <==> exists k :: 0 <= k < i && ports[k].portId == id
    {
      if ports[i].portId in seen { return false; }
      seen := seen + {ports[i].portId};
    }
    ok := true;
  }
}
