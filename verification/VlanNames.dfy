/** VLAN names and ids in port references (switch-configurator/src/config.rs,
    models.rs, api/handlers.rs): finding ambiguous names, resolving names, splitting
    a parsed reference, and writing ids as names. */
module VlanNames {
  import opened Basics
  import opened Models

  // ---- ambiguity ----

  /** Equal names mean equal ids. */
  predicate Unambiguous(vlans: seq<Vlan>) {
    forall i, j :: 0 <= i < |vlans| && 0 <= j < |vlans| && vlans[i].name == vlans[j].name ==> vlans[i].id == vlans[j].id
  }

  /** `r` is the first collision met when reading the list from the front. */
  ghost predicate FirstCollision(vlans: seq<Vlan>, r: (string, u16, u16)) {
    exists i, j :: 0 <= i < j < |vlans| && vlans[i].name == vlans[j].name == r.0
      && vlans[i].id == r.1 && vlans[j].id == r.2 && r.1 != r.2 && Unambiguous(vlans[..j])
  }

  method FindAmbiguousVlanName(vlans: seq<Vlan>) returns (r: Option<(string, u16, u16)>)
    ensures r.None? <==> Unambiguous(vlans)
    ensures r.Some? ==> FirstCollision(vlans, r.value)
  {
    var nameToId: map<string, u16> := map[];
    for k := 0 to |vlans|
      invariant Unambiguous(vlans[..k])
      invariant forall i :: 0 <= i < k ==> vlans[i].name in nameToId && nameToId[vlans[i].name] == vlans[i].id
      invariant forall n :: n in nameToId ==> exists i :: 0 <= i < k && vlans[i].name == n
    {
      var v := vlans[k];
      if v.name in nameToId && nameToId[v.name] != v.id {
        ghost var i :| 0 <= i < k && vlans[i].name == v.name;
        return Some((v.name, nameToId[v.name], v.id));
      }
      nameToId := nameToId[v.name := v.id];
    }
    assert vlans[..|vlans|] == vlans;
    r := None;
  }

  // ---- resolving names ----

  /** What a name stands for; with a repeated name the last row decides, as in a map
      collected from the list. */
  function IdOf(vlans: seq<Vlan>, name: string): Option<u16> {
    if vlans == [] then None
    else if vlans[|vlans| - 1].name == name then Some(vlans[|vlans| - 1].id)
    else IdOf(vlans[..|vlans| - 1], name)
  }

  /** First occurrences only, in order. */
  function Dedup(s: seq<u16>): seq<u16> {
    if s == [] then []
    else
      var d := Dedup(s[..|s| - 1]);
      if s[|s| - 1] in d then d else d + [s[|s| - 1]]
  }

  function RefId(vlans: seq<Vlan>, r: VlanRef): Option<u16> {
    match r
    case Id(id) => Some(id)
    case Name(name) => IdOf(vlans, name)
  }

  predicate AllKnown(vlans: seq<Vlan>, refs: seq<VlanRef>) {
    forall i :: 0 <= i < |refs| ==> RefId(vlans, refs[i]).Some?
  }

  predicate Distinct<T(==)>(s: seq<T>) {
    forall i, j :: 0 <= i < j < |s| ==> s[i] != s[j]
  }

  ghost predicate FirstMention(vlans: seq<Vlan>, refs: seq<VlanRef>, i: int, id: u16) {
    && 0 <= i < |refs| && RefId(vlans, refs[i]) == Some(id)
    && forall j :: 0 <= j < i ==> RefId(vlans, refs[j]) != Some(id)
  }

  /** `ids` are the ids that some reference means, each once, in the order of their first
      mention. */
  ghost predicate AreTheIds(vlans: seq<Vlan>, refs: seq<VlanRef>, ids: seq<u16>) {
    && Distinct(ids)
    && (forall id :: id in ids <==> exists i :: 0 <= i < |refs| && RefId(vlans, refs[i]) == Some(id))
    && (forall k, m, i, j ::
      (0 <= k < m < |ids| && FirstMention(vlans, refs, i, ids[k]) && FirstMention(vlans, refs, j, ids[m])) ==> i < j)
  }

  /** The ids of the references that mean something, in order. */
  function KnownIds(vlans: seq<Vlan>, refs: seq<VlanRef>): seq<u16> {
    if refs == [] then []
    else
      var rest := KnownIds(vlans, refs[..|refs| - 1]);
      match RefId(vlans, refs[|refs| - 1])
      case Some(id) => rest + [id]
      case None => rest
  }

  function ResolvePort(vlans: seq<Vlan>, p: Port, strict: bool): Result<Port> {
    if p.vlanName.Some? && IdOf(vlans, p.vlanName.value).None? then Err
    else if strict && !AllKnown(vlans, p.taggedVlanRefs) then Err
    else
      var p1 := if p.vlanName.Some? then p.(vlan := IdOf(vlans, p.vlanName.value).value, vlanName := None) else p;
      Ok(if p.taggedVlanRefs == [] then p1
         else p1.(taggedVlans := Dedup(KnownIds(vlans, p.taggedVlanRefs)), taggedVlanRefs := []))
  }

  predicate PortsResolve(vlans: seq<Vlan>, ports: seq<Port>, strict: bool) {
    forall i :: 0 <= i < |ports| ==> ResolvePort(vlans, ports[i], strict).Ok?
  }

  function ResolvePorts(vlans: seq<Vlan>, ports: seq<Port>, strict: bool): (r: seq<Port>)
    requires PortsResolve(vlans, ports, strict)
    ensures |r| == |ports|
  {
    seq(|ports|, i requires 0 <= i < |ports| => ResolvePort(vlans, ports[i], strict).value)
  }

  function Resolve(sw: SwitchConfig, strict: bool): Result<SwitchConfig> {
    if !Unambiguous(sw.vlans) || !PortsResolve(sw.vlans, sw.ports, strict) then Err
    else Ok(sw.(ports := ResolvePorts(sw.vlans, sw.ports, strict)))
  }

  method NameMap(vlans: seq<Vlan>) returns (m: map<string, u16>)
    ensures forall n :: (n in m <==> IdOf(vlans, n).Some?) && (n in m ==> IdOf(vlans, n) == Some(m[n]))
  {
    m := map[];
    for k := 0 to |vlans|
      invariant forall n :: (n in m <==> IdOf(vlans[..k], n).Some?) && (n in m ==> IdOf(vlans[..k], n) == Some(m[n]))
    {
      assert vlans[..k + 1][..k] == vlans[..k];
      m := m[vlans[k].name := vlans[k].id];
    }
    assert vlans[..|vlans|] == vlans;
  }

  /** `resolve_vlan_names`, loops and all. */
  method ResolveVlanNames(sw: SwitchConfig, strict: bool) returns (r: Result<SwitchConfig>)
    ensures r == Resolve(sw, strict)
    ensures r.Ok? ==> forall i :: 0 <= i < |sw.ports| ==>
      |r.value.ports| == |sw.ports| && ResolvedPort(sw.vlans, sw.ports[i], r.value.ports[i])
  {
    var collision := FindAmbiguousVlanName(sw.vlans);
    if collision.Some? { return Err; }
    var nameToId := NameMap(sw.vlans);
    var ports := sw.ports;
    for i := 0 to |ports|
      invariant |ports| == |sw.ports|
      invariant forall k :: 0 <= k < i ==> ResolvePort(sw.vlans, sw.ports[k], strict) == Ok(ports[k])
      invariant forall k :: i <= k < |ports| ==> ports[k] == sw.ports[k]
    {
      var port := ports[i];
      if port.vlanName.Some? {
        var name := port.vlanName.value;
        if name !in nameToId { return Err; }
        port := port.(vlan := nameToId[name], vlanName := None);
      }
      if port.taggedVlanRefs != [] {
        var refs := port.taggedVlanRefs;
        var ids := ResolveRefs(sw.vlans, nameToId, refs, strict);
        if ids.Err? { return Err; }
        port := port.(taggedVlans := ids.value, taggedVlanRefs := []);
      }
      ports := ports[i := port];
    }
    assert ports == ResolvePorts(sw.vlans, sw.ports, strict);
    ResolveGivesMeaning(sw, strict);
    r := Ok(sw.(ports := ports));
  }

  method ResolveRefs(ghost vlans: seq<Vlan>, nameToId: map<string, u16>, refs: seq<VlanRef>, strict: bool)
    returns (r: Result<seq<u16>>)
    requires forall n ::
      (n in nameToId <==> IdOf(vlans, n).Some?) && (n in nameToId ==> IdOf(vlans, n) == Some(nameToId[n]))
    ensures r.Err? <==> strict && !AllKnown(vlans, refs)
    ensures r.Ok? ==> r.value == Dedup(KnownIds(vlans, refs)) && AreTheIds(vlans, refs, r.value)
  {
    var resolved: seq<u16> := [];
    for k := 0 to |refs|
      invariant strict ==> AllKnown(vlans, refs[..k])
      invariant resolved == Dedup(KnownIds(vlans, refs[..k]))
    {
      assert refs[..k + 1][..k] == refs[..k] && refs[..k + 1][k] == refs[k];
      var id: Option<u16>;
      match refs[k] {
        case Id(n) => id := Some(n);
        case Name(name) =>
          if name in nameToId { id := Some(nameToId[name]); }
          else if strict { assert RefId(vlans, refs[k]).None?; return Err; }
          else { id := None; }
      }
      ghost var before := KnownIds(vlans, refs[..k]);
      assert RefId(vlans, refs[k]) == id;
      assert KnownIds(vlans, refs[..k + 1]) == if id.Some? then before + [id.value] else before;
      if id.Some? {
        assert (before + [id.value])[..|before|] == before;
        if id.value !in resolved { resolved := resolved + [id.value]; }
      }
    }
    assert refs[..|refs|] == refs;
    KnownIdsAreTheIds(vlans, refs);
    r := Ok(resolved);
  }

  // ---- what resolving means ----

  lemma {:induction false} KnownIdsAreTheIds(vlans: seq<Vlan>, refs: seq<VlanRef>)
    ensures AreTheIds(vlans, refs, Dedup(KnownIds(vlans, refs)))
  {
    if refs != [] {
      var front, last := refs[..|refs| - 1], refs[|refs| - 1];
      KnownIdsAreTheIds(vlans, front);
      assert refs == front + [last];
      if RefId(vlans, last).Some? {
        var known, id := KnownIds(vlans, front), RefId(vlans, last).value;
        assert (known + [id])[..|known|] == known;
        OneMoreId(vlans, front, last, Dedup(known));
      } else {
        SkipUnknown(vlans, front, last, Dedup(KnownIds(vlans, front)));
      }
    }
  }

  lemma OneMoreId(vlans: seq<Vlan>, front: seq<VlanRef>, last: VlanRef, ids: seq<u16>)
    requires AreTheIds(vlans, front, ids) && RefId(vlans, last).Some?
    ensures var id := RefId(vlans, last).value;
      AreTheIds(vlans, front + [last], if id in ids then ids else ids + [id])
  {
    var refs, id := front + [last], RefId(vlans, last).value;
    var r := if id in ids then ids else ids + [id];
    MentionsOf(vlans, front, last);
    forall x ensures x in r <==> exists i :: 0 <= i < |refs| && RefId(vlans, refs[i]) == Some(x) {
      assert refs[|front|] == last;
      if x in ids {
        var i :| 0 <= i < |front| && RefId(vlans, front[i]) == Some(x);
        assert refs[i] == front[i];
      }
    }
  }

  lemma SkipUnknown(vlans: seq<Vlan>, front: seq<VlanRef>, last: VlanRef, ids: seq<u16>)
    requires AreTheIds(vlans, front, ids) && RefId(vlans, last).None?
    ensures AreTheIds(vlans, front + [last], ids)
  {
    var refs := front + [last];
    MentionsOf(vlans, front, last);
    forall x | x in ids ensures exists i :: 0 <= i < |refs| && RefId(vlans, refs[i]) == Some(x) {
      var i :| 0 <= i < |front| && RefId(vlans, front[i]) == Some(x);
      assert refs[i] == front[i];
    }
  }

  /** An id is first mentioned where it was, or by the reference that is added. */
  lemma MentionsOf(vlans: seq<Vlan>, front: seq<VlanRef>, last: VlanRef)
    ensures forall i, id: u16 :: FirstMention(vlans, front + [last], i, id) ==>
      FirstMention(vlans, front, i, id) ||
        (i == |front| && RefId(vlans, last) == Some(id)
          && forall j :: 0 <= j < |front| ==> RefId(vlans, front[j]) != Some(id))
  {
    var refs := front + [last];
    assert forall j :: 0 <= j < |front| ==> refs[j] == front[j];
  }

  lemma {:induction false} IdOfIsARow(vlans: seq<Vlan>, name: string)
    ensures match IdOf(vlans, name)
      case Some(id) => exists i :: 0 <= i < |vlans| && vlans[i].name == name && vlans[i].id == id
      case None => forall i :: 0 <= i < |vlans| ==> vlans[i].name != name
  {
    if vlans != [] && vlans[|vlans| - 1].name != name {
      IdOfIsARow(vlans[..|vlans| - 1], name);
    }
  }

  /** With unambiguous names, a name means `id` exactly when some row says so. */
  lemma IdOfUnambiguous(vlans: seq<Vlan>, name: string, id: u16)
    requires Unambiguous(vlans)
    ensures IdOf(vlans, name) == Some(id) <==>
      exists i :: 0 <= i < |vlans| && vlans[i].name == name && vlans[i].id == id
  {
    IdOfIsARow(vlans, name);
  }

  /** `Dedup` keeps every value, once, where it first occurs, in the old order. */
  lemma {:induction false} DedupKeepsFirst(s: seq<u16>) returns (at: seq<nat>)
    ensures Distinct(Dedup(s)) && forall x :: x in s <==> x in Dedup(s)
    ensures |at| == |Dedup(s)|
    ensures forall k :: 0 <= k < |at| ==> at[k] < |s| && s[at[k]] == Dedup(s)[k] && s[at[k]] !in s[..at[k]]
    ensures forall k, m :: 0 <= k < m < |at| ==> at[k] < at[m]
  {
    if s == [] {
      at := [];
    } else {
      var front, last := s[..|s| - 1], s[|s| - 1];
      at := DedupKeepsFirst(front);
      assert s == front + [last];
      assert forall k :: 0 <= k < |at| ==> s[..at[k]] == front[..at[k]];
      if last !in Dedup(front) { at := at + [|s| - 1]; }
    }
  }

  lemma {:induction false} DedupDistinct(s: seq<u16>)
    ensures |Dedup(s)| <= |s|
    ensures |Dedup(s)| == |s| ==> Dedup(s) == s
    ensures Distinct(s) ==> Dedup(s) == s
  {
    if s != [] {
      var front := s[..|s| - 1];
      DedupDistinct(front);
      assert s == front + [s[|s| - 1]];
    }
  }

  /** Strict acceptance: the lenient run accepts too, with the identical switch. */
  lemma StrictImpliesLenient(sw: SwitchConfig)
    requires Resolve(sw, true).Ok?
    ensures Resolve(sw, false) == Resolve(sw, true)
  {
    assert forall i :: 0 <= i < |sw.ports| ==> ResolvePort(sw.vlans, sw.ports[i], true).Ok?;
    assert ResolvePorts(sw.vlans, sw.ports, false) == ResolvePorts(sw.vlans, sw.ports, true);
  }

  predicate HasName(vlans: seq<Vlan>, name: string) { exists v <- vlans :: v.name == name }

  /** What exactly the two modes accept: an untagged VLAN's name must be that of some row,
      and in strict mode so must the name of every tagged one. */
  lemma ResolveAccepts(sw: SwitchConfig, strict: bool)
    ensures Resolve(sw, strict).Ok? <==>
      && Unambiguous(sw.vlans)
      && forall i :: 0 <= i < |sw.ports| ==>
           && (sw.ports[i].vlanName.Some? ==> HasName(sw.vlans, sw.ports[i].vlanName.value))
           && (strict ==> forall r :: r in sw.ports[i].taggedVlanRefs && r.Name? ==> HasName(sw.vlans, r.name))
  {
    forall name ensures IdOf(sw.vlans, name).Some? <==> HasName(sw.vlans, name) { IdOfIsARow(sw.vlans, name); }
    forall p: Port
      ensures AllKnown(sw.vlans, p.taggedVlanRefs) <==>
        forall r :: r in p.taggedVlanRefs && r.Name? ==> HasName(sw.vlans, r.name)
    {
      if !AllKnown(sw.vlans, p.taggedVlanRefs) {
        var k :| 0 <= k < |p.taggedVlanRefs| && RefId(sw.vlans, p.taggedVlanRefs[k]).None?;
        assert p.taggedVlanRefs[k] in p.taggedVlanRefs;
      }
    }
  }

  /** A number means itself, a name the id of the row that has it. */
  ghost predicate Means(vlans: seq<Vlan>, r: VlanRef, id: u16) {
    r == Id(id) || (r.Name? && exists v <- vlans :: v.name == r.name && v.id == id)
  }

  /** What a resolved list is, said on the references: the ids that some of them means,
      each once, and one before another when it is meant first. */
  ghost predicate ResolvedList(vlans: seq<Vlan>, refs: seq<VlanRef>, ids: seq<u16>) {
    && Distinct(ids)
    && (forall id :: id in ids <==> exists i :: 0 <= i < |refs| && Means(vlans, refs[i], id))
    && (forall k, m, j :: (0 <= k < m < |ids| && 0 <= j < |refs| && Means(vlans, refs[j], ids[m])) ==>
          exists i :: 0 <= i < j && Means(vlans, refs[i], ids[k]))
  }

  /** Each port in its place, untouched but for the VLANs that were given by name. */
  ghost predicate ResolvedPort(vlans: seq<Vlan>, p: Port, r: Port) {
    && r.portId == p.portId && r.extras == p.extras && r.Resolved()
    && (if p.vlanName.Some? then Means(vlans, Name(p.vlanName.value), r.vlan) else r.vlan == p.vlan)
    && (if p.taggedVlanRefs == [] then r.taggedVlans == p.taggedVlans
        else ResolvedList(vlans, p.taggedVlanRefs, r.taggedVlans))
  }

  lemma RefIdIsMeant(vlans: seq<Vlan>, r: VlanRef, id: u16)
    requires Unambiguous(vlans)
    ensures RefId(vlans, r) == Some(id) <==> Means(vlans, r, id)
  {
    if r.Name? { IdOfUnambiguous(vlans, r.name, id); }
  }

  lemma KnownIdsResolved(vlans: seq<Vlan>, refs: seq<VlanRef>)
    requires Unambiguous(vlans)
    ensures ResolvedList(vlans, refs, Dedup(KnownIds(vlans, refs)))
  {
    var ids := Dedup(KnownIds(vlans, refs));
    KnownIdsAreTheIds(vlans, refs);
    forall r, id { RefIdIsMeant(vlans, r, id); }
    forall k, m, j | 0 <= k < m < |ids| && 0 <= j < |refs| && Means(vlans, refs[j], ids[m])
      ensures exists i :: 0 <= i < j && Means(vlans, refs[i], ids[k])
    {
      assert ids[k] in ids;
      var i0 :| 0 <= i0 < |refs| && RefId(vlans, refs[i0]) == Some(ids[k]);
      var i := EarliestMention(vlans, refs, i0, ids[k]);
      var j0 := EarliestMention(vlans, refs, j, ids[m]);
    }
  }

  lemma EarliestMention(vlans: seq<Vlan>, refs: seq<VlanRef>, at: nat, id: u16) returns (i: nat)
    requires at < |refs| && RefId(vlans, refs[at]) == Some(id)
    ensures i <= at && FirstMention(vlans, refs, i, id)
  {
    i := 0;
    while RefId(vlans, refs[i]) != Some(id)
      invariant i <= at && forall j :: 0 <= j < i ==> RefId(vlans, refs[j]) != Some(id)
      decreases at - i
    {
      i := i + 1;
    }
  }

  lemma PortResolved(vlans: seq<Vlan>, p: Port, strict: bool)
    requires Unambiguous(vlans) && ResolvePort(vlans, p, strict).Ok?
    ensures ResolvedPort(vlans, p, ResolvePort(vlans, p, strict).value)
  {
    KnownIdsResolved(vlans, p.taggedVlanRefs);
    if p.vlanName.Some? { IdOfUnambiguous(vlans, p.vlanName.value, IdOf(vlans, p.vlanName.value).value); }
  }

  /** Resolving gives each port what its references mean, and changes nothing else. */
  lemma ResolveGivesMeaning(sw: SwitchConfig, strict: bool)
    requires Resolve(sw, strict).Ok?
    ensures var r := Resolve(sw, strict).value;
      && |r.ports| == |sw.ports| && r == sw.(ports := r.ports)
      && forall i :: 0 <= i < |sw.ports| ==> ResolvedPort(sw.vlans, sw.ports[i], r.ports[i])
  {
    forall i | 0 <= i < |sw.ports|
      ensures ResolvedPort(sw.vlans, sw.ports[i], Resolve(sw, strict).value.ports[i])
    {
      assert ResolvePort(sw.vlans, sw.ports[i], strict).Ok?;
      PortResolved(sw.vlans, sw.ports[i], strict);
    }
  }

  /** Nothing is left to resolve afterwards, and resolving again changes nothing. */
  lemma ResolveSettles(sw: SwitchConfig, strict: bool, again: bool)
    requires Resolve(sw, strict).Ok?
    ensures var r := Resolve(sw, strict).value;
      (forall i :: 0 <= i < |r.ports| ==> r.ports[i].Resolved()) && Resolve(r, again) == Ok(r)
  {
    var r := Resolve(sw, strict).value;
    assert forall i :: 0 <= i < |r.ports| ==> ResolvePort(r.vlans, r.ports[i], again) == Ok(r.ports[i]);
    assert ResolvePorts(r.vlans, r.ports, again) == r.ports;
  }

  // ---- from parsed YAML to a port, and back ----

  /** A port as it stands in YAML. */
  datatype YamlPort = YamlPort(portId: string, vlan: VlanRef, tagged: seq<VlanRef>, extras: PortExtras)

  predicate AnyName(refs: seq<VlanRef>) { exists i :: 0 <= i < |refs| && refs[i].Name? }

  function IdsOnly(refs: seq<VlanRef>): seq<u16>
    requires !AnyName(refs)
  {
    seq(|refs|, i requires 0 <= i < |refs| => assert !refs[i].Name?; refs[i].id)
  }

  /** `Port::deserialize`: ids are taken at once; one name among the tagged VLANs defers
      the whole list. */
  function Split(y: YamlPort): Port {
    var named := AnyName(y.tagged);
    Port(y.portId,
         if y.vlan.Id? then y.vlan.id else 1,
         if named then [] else IdsOnly(y.tagged),
         y.extras,
         if y.vlan.Id? then None else Some(y.vlan.name),
         if named then y.tagged else [])
  }

  method Deserialize(y: YamlPort) returns (p: Port)
    ensures p == Split(y)
  {
    var tagged: seq<u16>, refs: seq<VlanRef> := [], [];
    if exists r <- y.tagged :: r.Name? {
      refs := y.tagged;
      assert AnyName(y.tagged);
    } else {
      assert !AnyName(y.tagged);
      for k := 0 to |y.tagged|
        invariant tagged == IdsOnly(y.tagged)[..k]
      {
        if y.tagged[k].Id? { tagged := tagged + [y.tagged[k].id]; }
      }
    }
    var vlan, name := 1, None;
    match y.vlan {
      case Id(id) => vlan := id;
      case Name(n) => name := Some(n);
    }
    p := Port(y.portId, vlan, tagged, y.extras, name, refs);
  }

  /** The name written for an id; with a repeated id the last row decides. */
  function NameOf(vlans: seq<Vlan>, id: u16): Option<string> {
    if vlans == [] then None
    else if vlans[|vlans| - 1].id == id then Some(vlans[|vlans| - 1].name)
    else NameOf(vlans[..|vlans| - 1], id)
  }

  function WrittenRef(vlans: seq<Vlan>, id: u16): VlanRef {
    match NameOf(vlans, id)
    case Some(name) => Name(name)
    case None => Id(id)
  }

  function WrittenRefs(vlans: seq<Vlan>, ids: seq<u16>): seq<VlanRef> {
    seq(|ids|, i requires 0 <= i < |ids| => WrittenRef(vlans, ids[i]))
  }

  /** A port's YAML after `prefer_vlan_names_in_yaml`. */
  function Written(vlans: seq<Vlan>, p: Port): YamlPort {
    YamlPort(p.portId, WrittenRef(vlans, p.vlan), WrittenRefs(vlans, p.taggedVlans), p.extras)
  }

  /** `prefer_vlan_names_in_yaml` on one switch. */
  method PreferVlanNames(vlans: seq<Vlan>, ports: seq<Port>) returns (out: seq<YamlPort>)
    ensures |out| == |ports| && forall i :: 0 <= i < |ports| ==> out[i] == Written(vlans, ports[i])
  {
    var names: map<u16, string> := map[];
    for k := 0 to |vlans|
      invariant forall id ::
        (id in names <==> NameOf(vlans[..k], id).Some?) && (id in names ==> NameOf(vlans[..k], id) == Some(names[id]))
    {
      assert vlans[..k + 1][..k] == vlans[..k];
      names := names[vlans[k].id := vlans[k].name];
    }
    assert vlans[..|vlans|] == vlans;
    out := [];
    for k := 0 to |ports|
      invariant |out| == k && forall i :: 0 <= i < k ==> out[i] == Written(vlans, ports[i])
    {
      var p := ports[k];
      var vlan := if p.vlan in names then Name(names[p.vlan]) else Id(p.vlan);
      var tagged: seq<VlanRef> := [];
      for m := 0 to |p.taggedVlans|
        invariant tagged == WrittenRefs(vlans, p.taggedVlans)[..m]
      {
        var id := p.taggedVlans[m];
        tagged := tagged + [if id in names then Name(names[id]) else Id(id)];
      }
      out := out + [YamlPort(p.portId, vlan, tagged, p.extras)];
    }
  }

  // ---- names and ids undo each other ----

  /** Write a port with one VLAN list, read it back and resolve it with another. */
  function ReadBack(own: seq<Vlan>, merged: seq<Vlan>, p: Port): Result<Port> {
    ResolvePort(merged, Split(Written(own, p)), false)
  }

  /** The name `own` has for `id`, if any, means `id` in `merged`. */
  predicate NameKept(own: seq<Vlan>, merged: seq<Vlan>, id: u16) {
    NameOf(own, id).Some? ==> IdOf(merged, NameOf(own, id).value) == Some(id)
  }

  predicate NamesKept(own: seq<Vlan>, merged: seq<Vlan>, p: Port) {
    NameKept(own, merged, p.vlan) && forall id :: id in p.taggedVlans ==> NameKept(own, merged, id)
  }

  lemma {:induction false} WrittenKnown(own: seq<Vlan>, merged: seq<Vlan>, ids: seq<u16>)
    requires forall id :: id in ids ==> NameKept(own, merged, id)
    ensures KnownIds(merged, WrittenRefs(own, ids)) == ids
  {
    if ids != [] {
      var front := ids[..|ids| - 1];
      WrittenKnown(own, merged, front);
      assert WrittenRefs(own, ids)[..|ids| - 1] == WrittenRefs(own, front);
      assert NameKept(own, merged, ids[|ids| - 1]);
      assert ids == front + [ids[|ids| - 1]];
    }
  }

  lemma {:induction false} KnownIdsShorter(vlans: seq<Vlan>, refs: seq<VlanRef>)
    ensures |KnownIds(vlans, refs)| <= |refs|
    ensures |KnownIds(vlans, refs)| == |refs| ==> forall i :: 0 <= i < |refs| ==>
      RefId(vlans, refs[i]) == Some(KnownIds(vlans, refs)[i])
  {
    if refs != [] {
      KnownIdsShorter(vlans, refs[..|refs| - 1]);
    }
  }

  /** If every name kept its meaning, the port comes back as it was; a tagged list with a
      name in it comes back without repetitions. */
  lemma ReadBackKeeps(own: seq<Vlan>, merged: seq<Vlan>, p: Port)
    requires p.Resolved() && NamesKept(own, merged, p)
    ensures ReadBack(own, merged, p) ==
      Ok(if AnyName(WrittenRefs(own, p.taggedVlans)) then p.(taggedVlans := Dedup(p.taggedVlans)) else p)
  {
    WrittenKnown(own, merged, p.taggedVlans);
    if !AnyName(WrittenRefs(own, p.taggedVlans)) {
      assert forall i :: 0 <= i < |p.taggedVlans| ==> !WrittenRefs(own, p.taggedVlans)[i].Name?;
      assert IdsOnly(WrittenRefs(own, p.taggedVlans)) == p.taggedVlans;
    }
  }

  lemma ReadBackForces(own: seq<Vlan>, merged: seq<Vlan>, p: Port)
    requires p.Resolved() && ReadBack(own, merged, p) == Ok(p)
    ensures NamesKept(own, merged, p)
  {
    var refs := WrittenRefs(own, p.taggedVlans);
    KnownIdsShorter(merged, refs);
    DedupDistinct(KnownIds(merged, refs));
    forall id | id in p.taggedVlans ensures NameKept(own, merged, id) {
      var k :| 0 <= k < |p.taggedVlans| && p.taggedVlans[k] == id;
      assert refs[k].Name? ==> AnyName(refs);
    }
  }

  /** Exactly when a port survives being written and read back: every name it is written
      with kept its meaning, and a tagged list written with a name has no repetition. */
  lemma ReadBackExact(own: seq<Vlan>, merged: seq<Vlan>, p: Port)
    requires p.Resolved()
    ensures ReadBack(own, merged, p) == Ok(p) <==>
      NamesKept(own, merged, p) && (AnyName(WrittenRefs(own, p.taggedVlans)) ==> Distinct(p.taggedVlans))
  {
    DedupDistinct(p.taggedVlans);
    var at := DedupKeepsFirst(p.taggedVlans);
    if NamesKept(own, merged, p) {
      ReadBackKeeps(own, merged, p);
    }
    if ReadBack(own, merged, p) == Ok(p) {
      ReadBackForces(own, merged, p);
    }
  }

  predicate HasRow(vlans: seq<Vlan>, id: u16, name: string) {
    exists j :: 0 <= j < |vlans| && vlans[j].id == id && vlans[j].name == name
  }

  /** No VLAN of `own` is renamed: for each, some row of `merged` has that id and name. */
  predicate NotRenamed(own: seq<Vlan>, merged: seq<Vlan>) {
    forall i :: 0 <= i < |own| ==> HasRow(merged, own[i].id, own[i].name)
  }

  /** A list with unambiguous names that contains the (id, name) rows of `own` keeps them all. */
  lemma ContainedNamesKept(own: seq<Vlan>, merged: seq<Vlan>, p: Port)
    requires Unambiguous(merged) && NotRenamed(own, merged)
    ensures NamesKept(own, merged, p)
  {
    forall id: u16 ensures NameKept(own, merged, id) {
      NameOfIsARow(own, id);
      if NameOf(own, id).Some? { IdOfUnambiguous(merged, NameOf(own, id).value, id); }
    }
  }

  lemma {:induction false} NameOfIsARow(vlans: seq<Vlan>, id: u16)
    ensures NameOf(vlans, id).Some? ==>
      exists i :: 0 <= i < |vlans| && vlans[i].id == id && vlans[i].name == NameOf(vlans, id).value
    ensures NameOf(vlans, id).None? ==> forall i :: 0 <= i < |vlans| ==> vlans[i].id != id
  {
    if vlans != [] && vlans[|vlans| - 1].id != id {
      NameOfIsARow(vlans[..|vlans| - 1], id);
    }
  }

  /** Why it matters: under a name that now means another VLAN, a port silently moves. */
  lemma RenamedVlanMovesPort(extras: PortExtras)
    ensures var own, merged :=
      [Vlan(10, "office", None, NoAddress)], [Vlan(10, "lab", None, NoAddress), Vlan(20, "office", None, NoAddress)];
      var p := Port("1", 10, [], extras, None, []);
      Unambiguous(own) && Unambiguous(merged) && ReadBack(own, merged, p) == Ok(p.(vlan := 20))
  {
    var own, merged :=
      [Vlan(10, "office", None, NoAddress)], [Vlan(10, "lab", None, NoAddress), Vlan(20, "office", None, NoAddress)];
    assert "lab"[0] != "office"[0];
    var p := Port("1", 10, [], extras, None, []);
    assert NameOf(own, 10) == Some("office") by { assert own[|own| - 1].id == 10; }
    assert IdOf(merged, "office") == Some(20) by { assert merged[|merged| - 1].name == "office"; }
    var y := Written(own, p);
    assert y.vlan == Name("office") && y.tagged == [];
    assert !AnyName(y.tagged) && IdsOnly(y.tagged) == [];
    assert Split(y) == Port("1", 1, [], extras, Some("office"), []);
  }
}
