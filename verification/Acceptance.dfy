/** What the checks of a switch accept and what they make of it, said on its fields
    (switch-configurator/src/config.rs, secrets.rs, allowed_hosts.rs). */
module Acceptance {
  import opened Basics
  import opened Models
  import opened VlanNames
  import opened PortRange
  import opened Validation

  // ---- community strings given by reference ----

  /** `value` is the text without the line ends at its end, and can be sent to a switch. */
  ghost predicate UsableText(raw: Option<string>, value: string) {
    && raw.Some? && value != "" && value <= raw.value
    && value[|value| - 1] != '\r' && value[|value| - 1] != '\n'
    && (forall i :: |value| <= i < |raw.value| ==> raw.value[i] == '\r' || raw.value[i] == '\n')
    && (forall c <- value :: c != '"' && !(c as int < 0x20) && !(0x7F <= c as int < 0xA0))
  }

  /** `r` is `c` with its string read: from the one source it names, or as it stands, and
      one that is there already is not contradicted. */
  ghost predicate CommunityRead(env: Secrets, c: SnmpCommunity, r: SnmpCommunity) {
    && r == c.(name := r.name) && r.name != ""
    && (c.name != "" || (c.nameFile.None? && c.nameCredential.None?) ==> r.name == c.name)
    && (c.nameFile.Some? ==> c.nameCredential.None? && UsableText(env.file(c.nameFile.value), r.name))
    && (c.nameCredential.Some? ==>
      var id := c.nameCredential.value;
      && id != "" && id != "." && id != ".." && '/' !in id && '\0' !in id
      && UsableText(env.credential(id), r.name))
  }

  /** Every community is read, and the service's own one where reads are on. */
  ghost predicate SnmpRead(env: Secrets, snmp: Option<SnmpConfig>, r: Option<SnmpConfig>) {
    match (snmp, r)
    case (None, None) => true
    case (Some(s), Some(t)) =>
      && t.trapReceivers == s.trapReceivers && t.enabledTraps == s.enabledTraps
      && |t.communities| == |s.communities|
      && (forall i :: 0 <= i < |s.communities| ==> CommunityRead(env, s.communities[i], t.communities[i]))
      && if s.ownReads.Some? && s.ownReads.value.autoMode && s.ownReads.value.community.Some? then
           && t.ownReads.Some? && t.ownReads.value.autoMode && t.ownReads.value.community.Some?
           && CommunityRead(env, s.ownReads.value.community.value, t.ownReads.value.community.value)
         else t.ownReads == s.ownReads
    case _ => false
  }

  lemma {:induction false} LineEndsTrimmed(s: string)
    ensures var t := TrimLineEnds(s);
      && (t != "" ==> t[|t| - 1] != '\r' && t[|t| - 1] != '\n')
      && forall i :: |t| <= i < |s| ==> s[i] == '\r' || s[i] == '\n'
  {
    if s != [] && (s[|s| - 1] == '\r' || s[|s| - 1] == '\n') { LineEndsTrimmed(s[..|s| - 1]); }
  }

  lemma SecretUsable(raw: Option<string>, value: string)
    ensures UsableSecret(raw) == Some(value) <==> UsableText(raw, value)
  {
    if raw.Some? {
      LineEndsTrimmed(raw.value);
      var t := TrimLineEnds(raw.value);
      assert t != "" ==> t[|t| - 1] == raw.value[|t| - 1];
      if UsableText(raw, value) {
        assert value[|value| - 1] == raw.value[|value| - 1];
        assert |value| == |t|;
        assert value == raw.value[..|value|] == t;
      }
    }
  }

  lemma CommunityReadExactly(env: Secrets, c: SnmpCommunity, r: SnmpCommunity)
    ensures ResolveCommunity(env, c) == Ok(r) <==> CommunityRead(env, c, r)
  {
    if c.nameFile.Some? {
      SecretUsable(env.file(c.nameFile.value), r.name);
    } else if c.nameCredential.Some? {
      SecretUsable(env.credential(c.nameCredential.value), r.name);
    }
  }

  /** Reading the secrets succeeds, and gives `r`, exactly when `r` is the configuration read. */
  lemma SnmpReadExactly(env: Secrets, snmp: Option<SnmpConfig>, r: Option<SnmpConfig>)
    ensures SnmpResolves(env, snmp) && ResolveSnmp(env, snmp) == r <==> SnmpRead(env, snmp, r)
  {
    forall c, x { CommunityReadExactly(env, c, x); }
    if SnmpRead(env, snmp, r) && snmp.Some? {
      var cs := snmp.value.communities;
      assert forall i :: 0 <= i < |cs| ==> ResolveCommunity(env, cs[i]) == Ok(r.value.communities[i]);
      assert ResolveCommunities(env, cs) == r.value.communities;
    }
  }

  // ---- VLANs of a port ----

  /** Defined: VLAN 1, or one of the rows. */
  predicate HasVlan(vlans: seq<Vlan>, id: u16) { id == 1 || exists v <- vlans :: v.id == id }

  ghost predicate KeptAt(vlans: seq<Vlan>, all: seq<u16>, kept: seq<u16>, at: seq<nat>) {
    && |at| == |kept|
    && (forall k :: 0 <= k < |at| ==> at[k] < |all| && kept[k] == all[at[k]])
    && (forall k, m :: 0 <= k < m < |at| ==> at[k] < at[m])
    && (forall i :: 0 <= i < |all| ==> (HasVlan(vlans, all[i]) <==> i in at))
  }

  lemma {:induction false} KeepDefinedAt(sw: SwitchConfig, ids: seq<u16>) returns (at: seq<nat>)
    requires sw.model.Some?
    ensures KeptAt(sw.vlans, ids, KeepDefined(sw, ids), at)
  {
    if ids == [] {
      at := [];
    } else {
      var front, last := ids[..|ids| - 1], ids[|ids| - 1];
      assert ids == front + [last];
      at := KeepDefinedAt(sw, front);
      KeptOneMore(sw.vlans, front, KeepDefined(sw, front), at, last);
      DefinedExactly(sw, last);
      if Defined(sw, last) { at := at + [|front|]; }
    }
  }

  lemma DefinedExactly(sw: SwitchConfig, id: u16)
    requires sw.model.Some?
    ensures Defined(sw, id) <==> HasVlan(sw.vlans, id)
  {
  }

  lemma KeptOneMore(vlans: seq<Vlan>, all: seq<u16>, kept: seq<u16>, at: seq<nat>, last: u16)
    requires KeptAt(vlans, all, kept, at)
    ensures if HasVlan(vlans, last) then KeptAt(vlans, all + [last], kept + [last], at + [|all|])
            else KeptAt(vlans, all + [last], kept, at)
  {
    forall i | 0 <= i < |all| ensures i in at <==> i in at + [|all|] {}
    assert |all| !in at && |all| in at + [|all|];
  }

  /** A port whose names are resolved and whose tagged VLANs are those of the list that are
      defined, in their order. */
  ghost predicate PortFinished(vlans: seq<Vlan>, p: Port, r: Port) {
    exists all, at :: ResolvedPort(vlans, p, r.(taggedVlans := all)) && KeptAt(vlans, all, r.taggedVlans, at)
  }

  lemma FinishedPort(sw: SwitchConfig, p: Port)
    requires sw.model.Some? && Unambiguous(sw.vlans) && ResolvePort(sw.vlans, p, false).Ok?
    ensures PortFinished(sw.vlans, p, Finish(sw, p))
  {
    var q, r := ResolvePort(sw.vlans, p, false).value, Finish(sw, p);
    PortResolved(sw.vlans, p, false);
    var at := KeepDefinedAt(sw, q.taggedVlans);
    assert r.(taggedVlans := q.taggedVlans) == q;
  }

  // ---- what the last checks accept ----

  predicate NameFits(model: SwitchModel, name: string) {
    && Utf8Length(name) <= (if model == Fortiswitch124F_FPOE then 63 else 32)
    && forall i :: 1 <= i < |name| - 1 && name[i] == '-' ==>
         !('0' <= name[i - 1] <= '9') || !('0' <= name[i + 1] <= '9')
  }

  /** The untagged VLAN, by name or number, is one of the switch; the speed one of the model. */
  predicate PortFits(sw: SwitchConfig, p: Port)
    requires sw.model.Some?
  {
    && (if p.vlanName.Some? then HasName(sw.vlans, p.vlanName.value) else HasVlan(sw.vlans, p.vlan))
    && (p.extras.speedDuplex == TenGFull ==>
      sw.model.value in {Aruba2530_48G_2SFP, Aruba2540_48G_4SFP, Aruba2930F, CiscoCatalyst9300_24P_UPOE})
  }

  /** What only FortiSwitch has: reads of its own, and communities limited to hosts. */
  predicate Supported(sw: SwitchConfig) {
    sw.model.Some? && sw.model.value != Fortiswitch124F_FPOE && sw.snmp.Some? ==>
      && (sw.snmp.value.ownReads.Some? && sw.snmp.value.ownReads.value.autoMode ==>
            sw.snmp.value.ownReads.value.community.None?)
      && forall c <- sw.snmp.value.communities :: c.allowedHosts == []
  }

  /** What can be settled: identity and login given, secrets readable, nothing asked for that
      the vendor has not, names that fit and mean one VLAN each, ports that fit, and no
      mirror's destination among the ports. */
  ghost predicate CanSettle(env: Secrets, sw: SwitchConfig) {
    && sw.hostname.Some? && sw.model.Some? && sw.managementIp.Some? && sw.credentials.Some?
    && (exists r :: SnmpRead(env, sw.snmp, r))
    && Supported(sw)
    && (forall v, w :: v in sw.vlans && w in sw.vlans && v.name == w.name ==> v.id == w.id)
    && (forall v <- sw.vlans :: NameFits(sw.model.value, v.name))
    && (forall p <- sw.ports :: PortFits(sw, p))
    && (forall m, p :: m in sw.portMirrors && p in sw.ports ==> m.destinationPort != p.portId)
  }

  /** What it is settled to. */
  ghost predicate SettledTo(env: Secrets, sw: SwitchConfig, r: SwitchConfig) {
    && r == sw.(ports := r.ports, snmp := r.snmp)
    && SnmpRead(env, sw.snmp, r.snmp)
    && |r.ports| == |sw.ports|
    && forall i :: 0 <= i < |sw.ports| ==> PortFinished(sw.vlans, sw.ports[i], r.ports[i])
  }

  lemma UnambiguousExactly(vlans: seq<Vlan>)
    ensures Unambiguous(vlans) <==> forall v, w :: v in vlans && w in vlans && v.name == w.name ==> v.id == w.id
  {
    if !Unambiguous(vlans) {
      var i, j :| 0 <= i < |vlans| && 0 <= j < |vlans| && vlans[i].name == vlans[j].name && vlans[i].id != vlans[j].id;
      assert vlans[i] in vlans && vlans[j] in vlans;
    }
  }

  lemma PortFitsExactly(sw: SwitchConfig, p: Port)
    requires sw.model.Some? && Unambiguous(sw.vlans)
    ensures PortFits(sw, p) <==>
      ResolvePort(sw.vlans, p, false).Ok? && PortRefsOk(sw, ResolvePort(sw.vlans, p, false).value, false)
  {
    if p.vlanName.Some? {
      IdOfIsARow(sw.vlans, p.vlanName.value);
    }
  }

  lemma ReferencesOfResolved(sw: SwitchConfig, r: SwitchConfig)
    requires sw.model.Some? && Resolve(sw, false) == Ok(r)
    requires forall p :: PortFits(sw, p) <==>
      ResolvePort(sw.vlans, p, false).Ok? && PortRefsOk(sw, ResolvePort(sw.vlans, p, false).value, false)
    ensures RefsOk(r, false) <==>
      && (forall v <- sw.vlans :: NameOk(sw.model.value, v))
      && (forall p <- sw.ports :: PortFits(sw, p))
      && (forall m, p :: m in sw.portMirrors && p in sw.ports ==> m.destinationPort != p.portId)
  {
    forall id: u16 ensures Defined(r, id) == Defined(sw, id) {}
    forall i | 0 <= i < |sw.ports|
      ensures r.ports[i].portId == sw.ports[i].portId
      ensures PortRefsOk(r, r.ports[i], false) <==> PortFits(sw, sw.ports[i])
    {
      assert ResolvePort(sw.vlans, sw.ports[i], false).Ok?;
    }
    SamePortIds(sw, r);
  }

  /** Resolving and checking references. */
  lemma ReferencesAccepted(sw: SwitchConfig)
    requires sw.model.Some?
    ensures Resolve(sw, false).Ok? && CheckRefs(Resolve(sw, false).value, false).Ok? <==>
      && Unambiguous(sw.vlans) && (forall v <- sw.vlans :: NameOk(sw.model.value, v))
      && (forall p <- sw.ports :: PortFits(sw, p))
      && (forall m, p :: m in sw.portMirrors && p in sw.ports ==> m.destinationPort != p.portId)
  {
    if Unambiguous(sw.vlans) {
      forall p { PortFitsExactly(sw, p); }
      if PortsResolve(sw.vlans, sw.ports, false) {
        ReferencesOfResolved(sw, Resolve(sw, false).value);
      } else {
        var i :| 0 <= i < |sw.ports| && ResolvePort(sw.vlans, sw.ports[i], false).Err?;
        assert !PortFits(sw, sw.ports[i]);
      }
    }
  }

  lemma ReferencesSettled(sw: SwitchConfig)
    requires sw.model.Some? && Resolve(sw, false).Ok? && CheckRefs(Resolve(sw, false).value, false).Ok?
    ensures var r := CheckRefs(Resolve(sw, false).value, false).value;
      && r == sw.(ports := r.ports) && |r.ports| == |sw.ports|
      && forall i :: 0 <= i < |sw.ports| ==> PortFinished(sw.vlans, sw.ports[i], r.ports[i])
  {
    var q := Resolve(sw, false).value;
    var r := CheckRefs(q, false).value;
    CheckRefsCloses(q);
    forall i | 0 <= i < |sw.ports| ensures PortFinished(sw.vlans, sw.ports[i], r.ports[i]) {
      assert ResolvePort(sw.vlans, sw.ports[i], false).Ok?;
      KeepDefinedSame(q, sw, q.ports[i].taggedVlans);
      FinishedPort(sw, sw.ports[i]);
    }
  }

  /** Reading the secrets changes nothing the other checks look at. */
  lemma CanSettleExactly(env: Secrets, sw: SwitchConfig)
    ensures CanSettle(env, sw) <==>
      && RequiredFields(sw) && SnmpResolves(env, sw.snmp)
      && var sw1 := sw.(snmp := ResolveSnmp(env, sw.snmp));
        VendorSupports(sw1) && Resolve(sw1, false).Ok? && CheckRefs(Resolve(sw1, false).value, false).Ok?
  {
    SnmpReadable(env, sw.snmp);
    if RequiredFields(sw) && SnmpResolves(env, sw.snmp) {
      var sw1 := sw.(snmp := ResolveSnmp(env, sw.snmp));
      VendorSupportsExactly(sw);
      ReadingKeepsSupport(env, sw);
      ReferencesAccepted(sw1);
      UnambiguousExactly(sw.vlans);
      assert forall p :: PortFits(sw1, p) == PortFits(sw, p);
      assert forall v :: NameOk(sw.model.value, v) <==> NameFits(sw.model.value, v.name);
    }
  }

  lemma SnmpReadable(env: Secrets, snmp: Option<SnmpConfig>)
    ensures SnmpResolves(env, snmp) <==> exists r :: SnmpRead(env, snmp, r)
    ensures SnmpResolves(env, snmp) ==> SnmpRead(env, snmp, ResolveSnmp(env, snmp))
  {
    if SnmpResolves(env, snmp) { SnmpReadExactly(env, snmp, ResolveSnmp(env, snmp)); }
    forall r | SnmpRead(env, snmp, r) ensures SnmpResolves(env, snmp) { SnmpReadExactly(env, snmp, r); }
  }

  lemma VendorSupportsExactly(sw: SwitchConfig)
    ensures VendorSupports(sw) <==> Supported(sw)
  {
  }

  lemma ReadingKeepsSupport(env: Secrets, sw: SwitchConfig)
    requires SnmpResolves(env, sw.snmp)
    ensures VendorSupports(sw.(snmp := ResolveSnmp(env, sw.snmp))) <==> VendorSupports(sw)
  {
    if sw.snmp.Some? {
      var cs := sw.snmp.value.communities;
      assert forall i :: 0 <= i < |cs| ==> ResolveCommunities(env, cs)[i].allowedHosts == cs[i].allowedHosts;
    }
  }

  /** An id, and VLAN ids from 1 to 4094. */
  predicate StructureOk(sw: SwitchConfig) {
    && sw.id != "" && (forall v <- sw.vlans :: 1 <= v.id <= 4094) && (forall p <- sw.ports :: 1 <= p.vlan <= 4094)
  }

  /** `validate_switch_config`, exactly: what it accepts, and what it makes of it. */
  lemma ValidateExactly(env: Secrets, sw: SwitchConfig)
    ensures Validate(env, sw).Ok? <==>
      Expand(sw).Ok? && StructureOk(Expand(sw).value) && CanSettle(env, Expand(sw).value)
    ensures Validate(env, sw).Ok? ==> SettledTo(env, Expand(sw).value, Validate(env, sw).value)
  {
    if Expand(sw).Ok? {
      var sw1 := Expand(sw).value;
      assert WellFormed(sw1) <==> StructureOk(sw1);
      CanSettleExactly(env, sw1);
      if Validate(env, sw).Ok? {
        SnmpReadable(env, sw1.snmp);
        ReferencesSettled(sw1.(snmp := ResolveSnmp(env, sw1.snmp)));
      }
    }
  }

  // ---- overlays ----

  /** A community names one source for its string, the string itself counting as none. */
  predicate OneSource(c: SnmpCommunity) {
    !(c.nameFile.Some? && c.nameCredential.Some?) && (c.name != "" || c.nameFile.Some? || c.nameCredential.Some?)
  }

  predicate SecretsNamed(snmp: Option<SnmpConfig>) {
    snmp.Some? ==>
      && (forall c <- snmp.value.communities :: OneSource(c))
      && match snmp.value.ownReads
         case Some(SnmpReads(true, Some(own))) => OneSource(own)
         case _ => true
  }

  lemma SecretsNamedExactly(snmp: Option<SnmpConfig>)
    ensures SourcesNamed(snmp) <==> SecretsNamed(snmp)
  {
    assert forall c :: NamesASource(c) <==> OneSource(c);
    if snmp.Some? && !SourcesNamed(snmp) {
      var cs := snmp.value.communities;
      assert forall i :: 0 <= i < |cs| ==> cs[i] in cs;
    }
  }

  /** Every VLAN the port refers to is a row of the overlay, one of another source, or VLAN 1;
      a name must be that of a row. */
  predicate RefersToKnown(vlans: seq<Vlan>, external: set<u16>, p: Port) {
    && (if p.vlanName.Some? then HasName(vlans, p.vlanName.value) else HasVlan(vlans, p.vlan) || p.vlan in external)
    && (if p.taggedVlanRefs == [] then forall id <- p.taggedVlans :: HasVlan(vlans, id) || id in external
        else forall r <- p.taggedVlanRefs ::
          if r.Name? then HasName(vlans, r.name) else HasVlan(vlans, r.id) || r.id in external)
  }

  lemma RefersToKnownExactly(sw: SwitchConfig, external: set<u16>, p: Port)
    requires Unambiguous(sw.vlans)
    ensures RefersToKnown(sw.vlans, external, p) <==>
      && ResolvePort(sw.vlans, p, true).Ok?
      && var r := ResolvePort(sw.vlans, p, true).value;
        Referable(sw, external, r.vlan) && forall id :: id in r.taggedVlans ==> Referable(sw, external, id)
  {
    var refs := p.taggedVlanRefs;
    forall name { IdOfIsARow(sw.vlans, name); }
    forall r ensures r in refs && r.Name? && AllKnown(sw.vlans, refs) ==> HasName(sw.vlans, r.name) {
      if r in refs { var i :| 0 <= i < |refs| && refs[i] == r; }
    }
    if ResolvePort(sw.vlans, p, true).Ok? {
      PortResolved(sw.vlans, p, true);
      var ids := ResolvePort(sw.vlans, p, true).value.taggedVlans;
      if refs != [] { NumbersAreMeant(sw, external, refs, ids); }
    } else if RefersToKnown(sw.vlans, external, p) {
      assert AllKnown(sw.vlans, refs);
    }
  }

  lemma NumbersAreMeant(sw: SwitchConfig, external: set<u16>, refs: seq<VlanRef>, ids: seq<u16>)
    requires ResolvedList(sw.vlans, refs, ids)
    ensures (forall id :: id in ids ==> Referable(sw, external, id)) <==>
      forall r :: r in refs && r.Id? ==> HasVlan(sw.vlans, r.id) || r.id in external
  {
    forall id: u16 ensures Referable(sw, external, id) <==> HasVlan(sw.vlans, id) || id in external {}
    forall r | r in refs && r.Id? ensures r.id in ids {
      var i :| 0 <= i < |refs| && refs[i] == r;
      assert Means(sw.vlans, refs[i], r.id);
    }
    forall id | id in ids ensures Id(id) in refs || HasVlan(sw.vlans, id) {
      var i :| 0 <= i < |refs| && Means(sw.vlans, refs[i], id);
      assert refs[i] in refs;
    }
  }

  ghost predicate OverlayAcceptable(sw: SwitchConfig, external: set<u16>) {
    && (forall i, j :: 0 <= i < j < |sw.vlans| ==> sw.vlans[i].id != sw.vlans[j].id)
    && (forall v <- sw.vlans :: 1 <= v.id <= 4094)
    && (forall i, j :: 0 <= i < j < |sw.ports| ==> sw.ports[i].portId != sw.ports[j].portId)
    && (forall v, w :: v in sw.vlans && w in sw.vlans && v.name == w.name ==> v.id == w.id)
    && (forall p <- sw.ports :: RefersToKnown(sw.vlans, external, p))
    && (forall m, p :: m in sw.portMirrors && p in sw.ports ==> m.destinationPort != p.portId)
  }

  lemma StrictReferences(sw: SwitchConfig, external: set<u16>)
    requires Unambiguous(sw.vlans)
    ensures Resolve(sw, true).Ok? && OverlayRefsOk(Resolve(sw, true).value, external) <==>
      && (forall p <- sw.ports :: RefersToKnown(sw.vlans, external, p))
      && (forall m, p :: m in sw.portMirrors && p in sw.ports ==> m.destinationPort != p.portId)
  {
    forall p { RefersToKnownExactly(sw, external, p); }
    if PortsResolve(sw.vlans, sw.ports, true) {
      StrictReferencesOfResolved(sw, external, Resolve(sw, true).value);
    } else {
      var i :| 0 <= i < |sw.ports| && ResolvePort(sw.vlans, sw.ports[i], true).Err?;
      assert !RefersToKnown(sw.vlans, external, sw.ports[i]);
    }
  }

  lemma StrictReferencesOfResolved(sw: SwitchConfig, external: set<u16>, r: SwitchConfig)
    requires Resolve(sw, true) == Ok(r)
    requires forall p :: RefersToKnown(sw.vlans, external, p) <==>
      && ResolvePort(sw.vlans, p, true).Ok?
      && var q := ResolvePort(sw.vlans, p, true).value;
        Referable(sw, external, q.vlan) && forall id :: id in q.taggedVlans ==> Referable(sw, external, id)
    ensures OverlayRefsOk(r, external) <==>
      && (forall p <- sw.ports :: RefersToKnown(sw.vlans, external, p))
      && (forall m, p :: m in sw.portMirrors && p in sw.ports ==> m.destinationPort != p.portId)
  {
    forall id: u16 ensures Referable(r, external, id) == Referable(sw, external, id) {}
    forall i | 0 <= i < |sw.ports|
      ensures r.ports[i].portId == sw.ports[i].portId
      ensures RefersToKnown(sw.vlans, external, sw.ports[i]) <==>
        && Referable(r, external, r.ports[i].vlan)
        && forall id :: id in r.ports[i].taggedVlans ==> Referable(r, external, id)
    {
      assert ResolvePort(sw.vlans, sw.ports[i], true).Ok?;
    }
    SamePortIds(sw, r);
  }

  lemma SamePortIds(a: SwitchConfig, b: SwitchConfig)
    requires |a.ports| == |b.ports| && forall i :: 0 <= i < |a.ports| ==> a.ports[i].portId == b.ports[i].portId
    ensures forall id :: HasPort(a, id) <==> HasPort(b, id)
  {
    forall id: string ensures HasPort(b, id) <==> HasPort(a, id) {
      if HasPort(b, id) {
        var i :| 0 <= i < |b.ports| && b.ports[i].portId == id;
        assert a.ports[i] in a.ports;
      }
      if HasPort(a, id) {
        var i :| 0 <= i < |a.ports| && a.ports[i].portId == id;
        assert b.ports[i] in b.ports;
      }
    }
  }

  /** `validate_overlay_config`, exactly: what it accepts, and what it makes of it. */
  lemma OverlayExactly(sw: SwitchConfig, external: set<u16>)
    ensures ValidateOverlay(sw, external).Ok? <==>
      && SecretsNamed(sw.snmp) && Supported(sw)
      && Expand(sw).Ok? && OverlayAcceptable(Expand(sw).value, external)
    ensures ValidateOverlay(sw, external).Ok? ==>
      var sw1, r := Expand(sw).value, ValidateOverlay(sw, external).value;
      && r == sw1.(ports := r.ports) && |r.ports| == |sw1.ports|
      && forall i :: 0 <= i < |sw1.ports| ==> ResolvedPort(sw1.vlans, sw1.ports[i], r.ports[i])
  {
    VendorSupportsExactly(sw);
    SecretsNamedExactly(sw.snmp);
    if Expand(sw).Ok? {
      var sw1 := Expand(sw).value;
      UnambiguousExactly(sw1.vlans);
      if Unambiguous(sw1.vlans) { StrictReferences(sw1, external); }
      if Resolve(sw1, true).Ok? { ResolveGivesMeaning(sw1, true); }
    }
  }
}
