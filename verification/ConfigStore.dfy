/** The in-memory store of switches and the requests that change it
    (switch-configurator/src/api/handlers.rs): PUT, PATCH, DELETE and the two reloads. */
module Store {
  import opened Basics
  import opened Models
  import opened PortRange
  import opened Validation
  import opened Acceptance
  import opened MergeConfigs
  import opened ConfigFiles

  // ---- rows by key ----

  /** Replace the first row with the same key, or add a row at the end. */
  function Upsert<K(==), R>(rows: seq<R>, key: R -> K, row: R): seq<R> {
    if rows == [] then [row]
    else if key(rows[0]) == key(row) then [row] + rows[1..]
    else [rows[0]] + Upsert(rows[1..], key, row)
  }

  function UpsertAll<K(==), R>(rows: seq<R>, key: R -> K, changes: seq<R>): seq<R> {
    if changes == [] then rows
    else Upsert(UpsertAll(rows, key, changes[..|changes| - 1]), key, changes[|changes| - 1])
  }

  /** The position of the first row with a key, or the length. */
  method Position<K(==), R>(rows: seq<R>, key: R -> K, k: K) returns (at: nat)
    ensures at <= |rows| && forall i :: 0 <= i < at ==> key(rows[i]) != k
    ensures at < |rows| ==> key(rows[at]) == k
  {
    at := 0;
    while at < |rows| && key(rows[at]) != k
      invariant at <= |rows| && forall i :: 0 <= i < at ==> key(rows[i]) != k
    {
      at := at + 1;
    }
  }

  lemma {:induction false} UpsertIs<K, R>(rows: seq<R>, key: R -> K, row: R, at: nat)
    requires at <= |rows| && forall i :: 0 <= i < at ==> key(rows[i]) != key(row)
    requires at < |rows| ==> key(rows[at]) == key(row)
    ensures Upsert(rows, key, row) == if at < |rows| then rows[at := row] else rows + [row]
  {
    if at > 0 {
      UpsertIs(rows[1..], key, row, at - 1);
    }
  }

  /** The loops that merge a list of changed rows into a list. */
  method MergeInto<K(==), R>(rows: seq<R>, key: R -> K, changes: seq<R>) returns (r: seq<R>)
    ensures r == UpsertAll(rows, key, changes)
  {
    r := rows;
    for i := 0 to |changes|
      invariant r == UpsertAll(rows, key, changes[..i])
    {
      assert changes[..i + 1][..i] == changes[..i];
      var at := Position(r, key, key(changes[i]));
      UpsertIs(r, key, changes[i], at);
      if at < |r| { r := r[at := changes[i]]; } else { r := r + [changes[i]]; }
    }
    assert changes[..|changes|] == changes;
  }

  /** After an upsert the row is found under its key, and every other key as before. */
  lemma {:induction false} UpsertFinds<K, R>(rows: seq<R>, key: R -> K, row: R, k: K)
    ensures Find(Upsert(rows, key, row), key, k) == if key(row) == k then Some(row) else Find(rows, key, k)
  {
    if rows != [] && key(rows[0]) != key(row) {
      UpsertFinds(rows[1..], key, row, k);
      var r := Upsert(rows[1..], key, row);
      assert ([rows[0]] + r)[1..] == r;
    }
  }

  /** Merging a list of changes: the last change of a key decides, and keys without a
      change find what they found. */
  lemma {:induction false} UpsertAllFinds<K, R>(rows: seq<R>, key: R -> K, changes: seq<R>, k: K)
    ensures Find(UpsertAll(rows, key, changes), key, k) ==
      if FindLast(changes, key, k).Some? then FindLast(changes, key, k) else Find(rows, key, k)
  {
    if changes != [] {
      var front := changes[..|changes| - 1];
      UpsertAllFinds(rows, key, front, k);
      UpsertFinds(UpsertAll(rows, key, front), key, changes[|changes| - 1], k);
    }
  }

  /** Rows keep their places and keys; only rows whose key is changed are replaced. */
  lemma {:induction false} UpsertAllKeepsPlaces<K, R>(rows: seq<R>, key: R -> K, changes: seq<R>, i: nat)
    requires i < |rows|
    ensures i < |UpsertAll(rows, key, changes)| && key(UpsertAll(rows, key, changes)[i]) == key(rows[i])
    ensures |rows| <= |UpsertAll(rows, key, changes)|
  {
    if changes != [] {
      var front := UpsertAll(rows, key, changes[..|changes| - 1]);
      UpsertAllKeepsPlaces(rows, key, changes[..|changes| - 1], i);
      UpsertKeepsPlaces(front, key, changes[|changes| - 1], i);
    }
  }

  lemma {:induction false} UpsertKeepsPlaces<K, R>(rows: seq<R>, key: R -> K, row: R, i: nat)
    requires i < |rows|
    ensures |rows| <= |Upsert(rows, key, row)| && key(Upsert(rows, key, row)[i]) == key(rows[i])
  {
    if key(rows[0]) != key(row) && i > 0 { UpsertKeepsPlaces(rows[1..], key, row, i - 1); }
    if key(rows[0]) != key(row) && |rows| > 1 { UpsertKeepsPlaces(rows[1..], key, row, 0); }
  }

  const SWITCH_ID := (s: SwitchConfig) => s.id

  // ---- requests ----

  /** What a PUT or a PATCH carries; a list that a PATCH leaves out is empty here. */
  datatype SwitchRequest = SwitchRequest(
    id: Option<string>, hostname: Option<string>, model: Option<SwitchModel>, managementIp: Option<string>,
    credentials: Option<Credentials>, vlans: seq<Vlan>, ports: seq<Port>, portMirrors: seq<PortMirror>,
    snmp: Option<SnmpConfig>, managementVlan: Option<u16>)

  predicate IdMatches(bodyId: Option<string>, id: string) { bodyId.Some? ==> bodyId.value == id }

  function Requested(id: string, r: SwitchRequest): SwitchConfig {
    SwitchConfig(id, r.hostname, r.model, r.managementIp, r.credentials, r.vlans, r.ports, r.portMirrors, r.snmp,
                 r.managementVlan, DEFAULT_SETTINGS)
  }

  function Or<T>(new_: Option<T>, current: Option<T>): Option<T> { if new_.Some? then new_ else current }

  function Patched(sw: SwitchConfig, r: SwitchRequest): SwitchConfig {
    SwitchConfig(sw.id, Or(r.hostname, sw.hostname), Or(r.model, sw.model), Or(r.managementIp, sw.managementIp),
                 Or(r.credentials, sw.credentials), UpsertAll(sw.vlans, VLAN_ID, r.vlans),
                 UpsertAll(sw.ports, PORT_ID, r.ports),
                 UpsertAll(sw.portMirrors, SESSION_ID, r.portMirrors), Or(r.snmp, sw.snmp),
                 Or(r.managementVlan, sw.managementVlan), sw.settings)
  }

  function WithoutSwitch(switches: seq<SwitchConfig>, id: string): seq<SwitchConfig> {
    if switches == [] then []
    else
      var front, last := WithoutSwitch(switches[..|switches| - 1], id), switches[|switches| - 1];
      if last.id == id then front else front + [last]
  }

  datatype Outcome = Created | Replaced | Updated | Deleted | Reloaded | BadRequest | NotFound | LoadFailed

  // ---- what loading makes available ----

  function FailedIds(failures: seq<Failure>): (ids: seq<string>)
    ensures |ids| == |failures|
  {
    seq(|failures|, i requires 0 <= i < |failures| => failures[i].switchId)
  }

  ghost predicate MergedFrom(env: Secrets, cs: seq<Loaded>, switches: seq<SwitchConfig>, failed: seq<string>) {
    exists failures :: SortedOut(env, cs, IdsOf(cs), switches, failures) && FailedIds(failures) == failed
  }

  ghost predicate Loads(d: Disk) {
    if d.folders == [] then d.main.Some? else LoadSources(d).Ok? && NoConflict(LoadSources(d).value)
  }

  /** What the files yield, if they load: from one file switch by switch, from several by merging. */
  ghost predicate LoadedBy(env: Secrets, d: Disk, switches: seq<SwitchConfig>, failed: seq<string>) {
    Loads(d) &&
    if d.folders == [] then
      switches == ValidOnes(env, Parse(d.main.value).switches) &&
        failed == FailedOnes(env, Parse(d.main.value).switches)
    else
      MergedFrom(env, LoadSources(d).value, switches, failed)
  }

  method LoadFromDisk(env: Secrets, d: Disk) returns (r: Result<(seq<SwitchConfig>, seq<string>)>)
    ensures r.Ok? <==> Loads(d)
    ensures r.Ok? ==> LoadedBy(env, d, r.value.0, r.value.1)
  {
    if d.folders == [] {
      r := LoadSingle(env, d);
    } else {
      var merged := LoadMulti(env, d);
      if merged.Err? { return Err; }
      assert SortedOut(env, LoadSources(d).value, IdsOf(LoadSources(d).value), merged.value.0, merged.value.1);
      r := Ok((merged.value.0, FailedIds(merged.value.1)));
    }
  }

  ghost predicate AllSettled(env: Secrets, switches: seq<SwitchConfig>) {
    forall i :: 0 <= i < |switches| ==> Settled(env, switches[i])
  }

  /** Whatever a load yields is settled. */
  lemma LoadedIsSettled(env: Secrets, d: Disk, switches: seq<SwitchConfig>, failed: seq<string>)
    requires LoadedBy(env, d, switches, failed)
    ensures AllSettled(env, switches)
  {
    if d.folders == [] {
      SingleFileSortsOut(env, Parse(d.main.value).switches);
    } else {
      var cs := LoadSources(d).value;
      var failures :| SortedOut(env, cs, IdsOf(cs), switches, failures) && FailedIds(failures) == failed;
      SourcesAreSound(d);
      IdsMentioned(cs);
      forall i | 0 <= i < |switches| ensures Settled(env, switches[i]) {
        MergedIsSettled(env, cs, switches[i].id);
      }
    }
  }

  /** The assignments of a PATCH, field by field and list by list. */
  method ApplyPatch(original: SwitchConfig, r: SwitchRequest) returns (sw: SwitchConfig)
    ensures sw == Patched(original, r)
  {
    sw := original;
    if r.hostname.Some? { sw := sw.(hostname := r.hostname); }
    if r.model.Some? { sw := sw.(model := r.model); }
    if r.managementIp.Some? { sw := sw.(managementIp := r.managementIp); }
    if r.credentials.Some? { sw := sw.(credentials := r.credentials); }
    if r.managementVlan.Some? { sw := sw.(managementVlan := r.managementVlan); }
    var vlans := MergeInto(sw.vlans, VLAN_ID, r.vlans);
    var ports := MergeInto(sw.ports, PORT_ID, r.ports);
    var mirrors := MergeInto(sw.portMirrors, SESSION_ID, r.portMirrors);
    sw := sw.(vlans := vlans, ports := ports, portMirrors := mirrors);
    if r.snmp.Some? { sw := sw.(snmp := r.snmp); }
  }

  // ---- what a request leaves in the store ----

  /** The switch that a PUT asks for, before it is checked. */
  predicate IsAsked(id: string, r: SwitchRequest, sw: SwitchConfig) {
    && sw.id == id && sw.hostname == r.hostname && sw.model == r.model && sw.managementIp == r.managementIp
    && sw.credentials == r.credentials && sw.vlans == r.vlans && sw.ports == r.ports
    && sw.portMirrors == r.portMirrors && sw.snmp == r.snmp && sw.managementVlan == r.managementVlan
    && sw.settings == Settings(30, 3, false, 161)
  }

  /** The switch that a PATCH makes of a stored one, before it is checked: what the request
      gives replaces what there was, rows go in by key. */
  predicate IsPatchOf(was: SwitchConfig, r: SwitchRequest, sw: SwitchConfig) {
    && ScalarsChanged(was, r, sw)
    && (r.snmp.Some? ==> sw.snmp == r.snmp) && (r.snmp.None? ==> sw.snmp == was.snmp)
    && sw.vlans == UpsertAll(was.vlans, VLAN_ID, r.vlans) && sw.ports == UpsertAll(was.ports, PORT_ID, r.ports)
    && sw.portMirrors == UpsertAll(was.portMirrors, SESSION_ID, r.portMirrors)
  }

  predicate ScalarsChanged(was: SwitchConfig, r: SwitchRequest, now: SwitchConfig) {
    && now.id == was.id && now.settings == was.settings
    && (r.hostname.Some? ==> now.hostname == r.hostname) && (r.hostname.None? ==> now.hostname == was.hostname)
    && (r.model.Some? ==> now.model == r.model) && (r.model.None? ==> now.model == was.model)
    && (r.managementIp.Some? ==> now.managementIp == r.managementIp)
    && (r.managementIp.None? ==> now.managementIp == was.managementIp)
    && (r.credentials.Some? ==> now.credentials == r.credentials)
    && (r.credentials.None? ==> now.credentials == was.credentials)
    && (r.managementVlan.Some? ==> now.managementVlan == r.managementVlan)
    && (r.managementVlan.None? ==> now.managementVlan == was.managementVlan)
  }

  /** The last row of the request with a key, otherwise the one there was. */
  ghost predicate RowsChanged<K(!new), R>(was: seq<R>, asked: seq<R>, now: seq<R>, key: R -> K) {
    forall k ::
      Find(now, key, k) == if FindLast(asked, key, k).Some? then FindLast(asked, key, k) else Find(was, key, k)
  }

  ghost predicate MirrorsChanged(was: seq<PortMirror>, asked: seq<PortMirror>, now: seq<PortMirror>) {
    forall k ::
      var m, found := FindLast(asked, SESSION_ID, k), Find(now, SESSION_ID, k);
      if m.Some? then found.Some? && MirrorExpanded(m.value, found.value) else found == Find(was, SESSION_ID, k)
  }

  /** A PATCH, field by field: what the request gives is the request's, what it leaves out is
      as it was. */
  ghost predicate IsPatched(env: Secrets, was: SwitchConfig, r: SwitchRequest, now: SwitchConfig) {
    && ScalarsChanged(was, r, now)
    && (r.snmp.Some? ==> SnmpRead(env, r.snmp, now.snmp)) && (r.snmp.None? ==> now.snmp == was.snmp)
    && RowsChanged(was.vlans, r.vlans, now.vlans, VLAN_ID)
    && MirrorsChanged(was.portMirrors, r.portMirrors, now.portMirrors)
  }

  /** A PUT, field by field: everything is the request's, the settings are the defaults. */
  ghost predicate IsRequested(env: Secrets, id: string, r: SwitchRequest, now: SwitchConfig) {
    && now.id == id && now.hostname == r.hostname && now.model == r.model && now.managementIp == r.managementIp
    && now.credentials == r.credentials && now.vlans == r.vlans && now.managementVlan == r.managementVlan
    && now.settings == Settings(30, 3, false, 161) && SnmpRead(env, r.snmp, now.snmp)
    && |now.portMirrors| == |r.portMirrors|
    && (forall i :: 0 <= i < |r.portMirrors| ==> MirrorExpanded(r.portMirrors[i], now.portMirrors[i]))
    && ExpandPorts(r.ports).Ok?
    && var copies := ExpandPorts(r.ports).value;
      && |now.ports| == |copies|
      && forall i :: 0 <= i < |copies| ==> PortFinished(r.vlans, copies[i], now.ports[i])
  }

  /** Rows that keep their keys are found where they were. */
  lemma FindInPlace<K, R>(rows: seq<R>, mapped: seq<R>, key: R -> K, k: K) returns (at: nat)
    requires |mapped| == |rows| && forall i :: 0 <= i < |rows| ==> key(mapped[i]) == key(rows[i])
    ensures at <= |rows|
    ensures Find(rows, key, k) == if at < |rows| then Some(rows[at]) else None
    ensures Find(mapped, key, k) == if at < |rows| then Some(mapped[at]) else None
  {
    at := 0;
    while at < |rows| && key(rows[at]) != k
      invariant at <= |rows| && forall i :: 0 <= i < at ==> key(rows[i]) != k
    {
      at := at + 1;
    }
    FindIs(rows, key, k, at);
    FindIs(mapped, key, k, at);
  }

  lemma FindExpanded(mirrors: seq<PortMirror>, k: string)
    requires MirrorsExpand(mirrors)
    ensures var m, r := Find(mirrors, SESSION_ID, k), Find(ExpandMirrors(mirrors), SESSION_ID, k);
      if m.Some? then m.value in mirrors && r == Some(ExpandMirror(m.value).value) else r.None?
  {
    forall i | 0 <= i < |mirrors| ensures ExpandMirrors(mirrors)[i].sessionId == mirrors[i].sessionId {
      assert ExpandMirror(mirrors[i]).Ok?;
    }
    var at := FindInPlace(mirrors, ExpandMirrors(mirrors), SESSION_ID, k);
  }

  lemma MirrorsArePatched(sw: SwitchConfig, asked: seq<PortMirror>)
    requires Expanded(sw) && MirrorsExpand(UpsertAll(sw.portMirrors, SESSION_ID, asked))
    ensures MirrorsChanged(sw.portMirrors, asked, ExpandMirrors(UpsertAll(sw.portMirrors, SESSION_ID, asked)))
  {
    ExpandedStaysPut(sw);
    var rows := UpsertAll(sw.portMirrors, SESSION_ID, asked);
    forall k
      ensures var m, found := FindLast(asked, SESSION_ID, k), Find(ExpandMirrors(rows), SESSION_ID, k);
        if m.Some? then found.Some? && MirrorExpanded(m.value, found.value)
        else found == Find(sw.portMirrors, SESSION_ID, k)
    {
      UpsertAllFinds(sw.portMirrors, SESSION_ID, asked, k);
      FindExpanded(rows, k);
      FindExpanded(sw.portMirrors, k);
      if FindLast(asked, SESSION_ID, k).Some? { ExpandMirrorExactly(FindLast(asked, SESSION_ID, k).value); }
    }
  }

  /** What is stored after a PATCH of a stored switch. */
  lemma PatchedIsPatched(env: Secrets, sw: SwitchConfig, r: SwitchRequest)
    requires Settled(env, sw) && Validate(env, Patched(sw, r)).Ok?
    ensures IsPatched(env, sw, r, Validate(env, Patched(sw, r)).value)
  {
    var patched := Patched(sw, r);
    var now := Validate(env, patched).value;
    ValidateExactly(env, patched);
    MirrorsArePatched(sw, r.portMirrors);
    SnmpReadExactly(env, patched.snmp, now.snmp);
    forall k
      ensures Find(now.vlans, VLAN_ID, k) ==
        if FindLast(r.vlans, VLAN_ID, k).Some? then FindLast(r.vlans, VLAN_ID, k) else Find(sw.vlans, VLAN_ID, k)
    {
      UpsertAllFinds(sw.vlans, VLAN_ID, r.vlans, k);
    }
  }

  lemma RequestedIsAsked(id: string, r: SwitchRequest, sw: SwitchConfig)
    ensures IsAsked(id, r, sw) <==> sw == Requested(id, r)
  {
  }

  lemma PatchedIsPatchOf(was: SwitchConfig, r: SwitchRequest, sw: SwitchConfig)
    ensures IsPatchOf(was, r, sw) <==> sw == Patched(was, r)
  {
  }

  lemma RequestedIsRequested(env: Secrets, id: string, r: SwitchRequest)
    requires Validate(env, Requested(id, r)).Ok?
    ensures IsRequested(env, id, r, Validate(env, Requested(id, r)).value)
  {
    var asked := Requested(id, r);
    ValidateExactly(env, asked);
    ExpandExactly(asked);
  }

  /** Putting a switch in the place of the first one with its id. */
  lemma PutInPlace(env: Secrets, switches: seq<SwitchConfig>, at: nat, sw: SwitchConfig)
    requires at < |switches| && switches[at].id == sw.id && forall i :: 0 <= i < at ==> switches[i].id != sw.id
    requires AllSettled(env, switches) && Settled(env, sw)
    ensures switches[at := sw] == Upsert(switches, SWITCH_ID, sw) && AllSettled(env, switches[at := sw])
    ensures Find(switches, SWITCH_ID, sw.id) == Some(switches[at])
    ensures forall k ::
      Find(switches[at := sw], SWITCH_ID, k) == if k == sw.id then Some(sw) else Find(switches, SWITCH_ID, k)
  {
    FindIs(switches, SWITCH_ID, sw.id, at);
    UpsertIs(switches, SWITCH_ID, sw, at);
    forall k { UpsertFinds(switches, SWITCH_ID, sw, k); }
  }

  // ---- the store ----

  class ConfigStore {
    const env: Secrets
    var switches: seq<SwitchConfig>
    var failed: seq<string>

    /** Every stored switch is settled, so closed under its references. */
    ghost predicate Valid() reads this { AllSettled(env, switches) }

    constructor (env: Secrets)
      ensures Valid() && this.env == env && switches == [] && failed == []
    {
      this.env, switches, failed := env, [], [];
    }

    /** PUT: accepted exactly when the ids agree and the whole new switch validates. */
    method SetSwitchConfig(id: string, request: SwitchRequest) returns (o: Outcome)
      requires Valid()
      modifies this`switches
      ensures Valid()
      ensures o in {Created, Replaced, BadRequest}
      ensures o != BadRequest <==> IdMatches(request.id, id) && Validate(env, Requested(id, request)).Ok?
      ensures forall sw | IsAsked(id, request, sw) ::
        o != BadRequest <==> IdMatches(request.id, id) && Validate(env, sw).Ok?
      ensures o != BadRequest ==>
        && switches == Upsert(old(switches), SWITCH_ID, Validate(env, Requested(id, request)).value)
        && (o == Replaced <==> Find(old(switches), SWITCH_ID, id).Some?)
        && Find(switches, SWITCH_ID, id).Some? && IsRequested(env, id, request, Find(switches, SWITCH_ID, id).value)
        && forall k :: k != id ==> Find(switches, SWITCH_ID, k) == Find(old(switches), SWITCH_ID, k)
      ensures o == BadRequest ==> switches == old(switches)
    {
      if request.id.Some? && request.id.value != id { return BadRequest; }
      forall sw ensures IsAsked(id, request, sw) <==> sw == Requested(id, request) {
        RequestedIsAsked(id, request, sw);
      }
      var at := Position(switches, SWITCH_ID, id);
      FindIs(switches, SWITCH_ID, id, at);
      var complete := request.hostname.Some? && request.model.Some? && request.managementIp.Some? &&
                      request.credentials.Some?;
      if at == |switches| && !complete {
        return BadRequest;
      }
      var sw := ValidateSwitchConfig(env, Requested(id, request));
      if sw.Err? { return BadRequest; }
      ValidateSettles(env, Requested(id, request));
      RequestedIsRequested(env, id, request);
      UpsertIs(switches, SWITCH_ID, sw.value, at);
      forall k { UpsertFinds(switches, SWITCH_ID, sw.value, k); }
      if at < |switches| {
        switches := switches[at := sw.value];
        o := Replaced;
      } else {
        switches := switches + [sw.value];
        o := Created;
      }
    }

    /** PATCH: the stored switch is changed in place and put back if it no longer validates. */
    method PatchSwitchConfig(id: string, request: SwitchRequest) returns (o: Outcome)
      requires Valid()
      modifies this`switches
      ensures Valid()
      ensures o in {Updated, NotFound, BadRequest}
      ensures o == NotFound <==> IdMatches(request.id, id) && Find(old(switches), SWITCH_ID, id).None?
      ensures o == Updated <==>
        && IdMatches(request.id, id) && Find(old(switches), SWITCH_ID, id).Some?
        && Validate(env, Patched(Find(old(switches), SWITCH_ID, id).value, request)).Ok?
      ensures o in {Updated, BadRequest} && IdMatches(request.id, id) ==>
        forall sw | IsPatchOf(Find(old(switches), SWITCH_ID, id).value, request, sw) ::
          o == Updated <==> Validate(env, sw).Ok?
      ensures o == Updated ==>
        switches ==
          Upsert(old(switches), SWITCH_ID,
            Validate(env, Patched(Find(old(switches), SWITCH_ID, id).value, request)).value)
      ensures o == Updated ==>
        && Find(switches, SWITCH_ID, id).Some?
        && IsPatched(env, Find(old(switches), SWITCH_ID, id).value, request, Find(switches, SWITCH_ID, id).value)
        && forall k :: k != id ==> Find(switches, SWITCH_ID, k) == Find(old(switches), SWITCH_ID, k)
      ensures o != Updated ==> switches == old(switches)
    {
      if request.id.Some? && request.id.value != id { return BadRequest; }
      var at := Position(switches, SWITCH_ID, id);
      FindIs(switches, SWITCH_ID, id, at);
      if at == |switches| { return NotFound; }
      var original := switches[at];
      forall x ensures IsPatchOf(original, request, x) <==> x == Patched(original, request) {
        PatchedIsPatchOf(original, request, x);
      }
      var sw := ApplyPatch(original, request);
      switches := switches[at := sw];
      var validated := ValidateSwitchConfig(env, sw);
      if validated.Err? {
        switches := switches[at := original];
        assert switches == old(switches);
        return BadRequest;
      }
      ValidateSettles(env, sw);
      PatchedIsPatched(env, original, request);
      PutInPlace(env, old(switches), at, validated.value);
      switches := switches[at := validated.value];
      assert switches == old(switches)[at := validated.value];
      o := Updated;
    }

    /** DELETE: every switch with the id goes, the others stay in order. */
    method DeleteSwitchConfig(id: string) returns (o: Outcome)
      requires Valid()
      modifies this`switches
      ensures Valid()
      ensures switches == WithoutSwitch(old(switches), id)
      ensures o == if Find(old(switches), SWITCH_ID, id).Some? then Deleted else NotFound
    {
      var kept: seq<SwitchConfig> := [];
      for i := 0 to |switches|
        invariant kept == WithoutSwitch(switches[..i], id) && switches == old(switches)
      {
        assert switches[..i + 1][..i] == switches[..i];
        if switches[i].id != id { kept := kept + [switches[i]]; }
      }
      assert switches[..|switches|] == switches;
      WithoutKeepsOthers(switches, id);
      WithoutIsSettled(env, switches, id);
      o := if |kept| < |switches| then Deleted else NotFound;
      switches := kept;
    }

    /** POST /config/reload: all or nothing. */
    method Reload(d: Disk) returns (o: Outcome)
      requires Valid()
      modifies this`switches, this`failed
      ensures Valid()
      ensures o == if Loads(d) then Reloaded else LoadFailed
      ensures o == Reloaded ==> LoadedBy(env, d, switches, failed)
      ensures o == LoadFailed ==> switches == old(switches) && failed == old(failed)
    {
      var loaded := LoadFromDisk(env, d);
      if loaded.Err? { return LoadFailed; }
      LoadedIsSettled(env, d, loaded.value.0, loaded.value.1);
      failed := loaded.value.1;
      switches := loaded.value.0;
      o := Reloaded;
    }

    method ReplaceOrAdd(sw: SwitchConfig)
      requires Valid() && Settled(env, sw)
      modifies this`switches
      ensures Valid() && switches == Upsert(old(switches), SWITCH_ID, sw)
    {
      var at := Position(switches, SWITCH_ID, sw.id);
      UpsertIs(switches, SWITCH_ID, sw, at);
      if at < |switches| { switches := switches[at := sw]; } else { switches := switches + [sw]; }
    }

    /** POST /switches/{id}/reload: only that switch is replaced or added. */
    method ReloadSwitch(id: string, d: Disk) returns (o: Outcome, ghost loaded: seq<SwitchConfig>)
      requires Valid()
      modifies this`switches, this`failed
      ensures Valid()
      ensures o in {Reloaded, NotFound, LoadFailed}
      ensures o == LoadFailed <==> !Loads(d)
      ensures o == LoadFailed ==> switches == old(switches) && failed == old(failed)
      ensures o != LoadFailed ==> LoadedBy(env, d, loaded, failed)
      ensures o == NotFound ==> Find(loaded, SWITCH_ID, id).None? && switches == old(switches)
      ensures o == Reloaded ==>
        Find(loaded, SWITCH_ID, id).Some? &&
          switches == Upsert(old(switches), SWITCH_ID, Find(loaded, SWITCH_ID, id).value)
    {
      loaded := [];
      var r := LoadFromDisk(env, d);
      if r.Err? { return LoadFailed, loaded; }
      loaded := r.value.0;
      LoadedIsSettled(env, d, r.value.0, r.value.1);
      failed := r.value.1;
      var from := Position(r.value.0, SWITCH_ID, id);
      FindIs(r.value.0, SWITCH_ID, id, from);
      if from == |r.value.0| { return NotFound, loaded; }
      ReplaceOrAdd(r.value.0[from]);
      o := Reloaded;
    }
  }

  lemma {:induction false} WithoutKeepsOthers(switches: seq<SwitchConfig>, id: string)
    ensures |WithoutSwitch(switches, id)| <= |switches|
    ensures |WithoutSwitch(switches, id)| == |switches| <==> Find(switches, SWITCH_ID, id).None?
    ensures forall sw :: sw in WithoutSwitch(switches, id) <==> sw in switches && sw.id != id
    ensures forall k :: k != id ==> Find(WithoutSwitch(switches, id), SWITCH_ID, k) == Find(switches, SWITCH_ID, k)
  {
    if switches != [] {
      var front, last := switches[..|switches| - 1], switches[|switches| - 1];
      WithoutKeepsOthers(front, id);
      assert switches == front + [last];
      forall k { FindOfSnoc(front, SWITCH_ID, last, k); }
      forall k { FindOfSnoc(WithoutSwitch(front, id), SWITCH_ID, last, k); }
    }
  }

  lemma {:induction false} WithoutIsSettled(env: Secrets, switches: seq<SwitchConfig>, id: string)
    requires AllSettled(env, switches)
    ensures AllSettled(env, WithoutSwitch(switches, id))
  {
    if switches != [] { WithoutIsSettled(env, switches[..|switches| - 1], id); }
  }

  lemma {:induction false} FindOfSnoc<K, R>(rows: seq<R>, key: R -> K, row: R, k: K)
    ensures Find(rows + [row], key, k) ==
      if Find(rows, key, k).Some? then Find(rows, key, k) else if key(row) == k then Some(row) else None
  {
    if rows == [] {
      assert rows + [row] == [row];
    } else {
      assert (rows + [row])[1..] == rows[1..] + [row];
      FindOfSnoc(rows[1..], key, row, k);
    }
  }
}
