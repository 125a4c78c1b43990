/** Saving an overlay and loading it again (switch-configurator/src/api/handlers.rs,
    `save_overlay`; config.rs): what a port of a saved overlay is after the merge. */
module SaveLoad {
  import opened Basics
  import opened Models
  import opened VlanNames
  import opened PortRange
  import opened RowMerge
  import opened Merge
  import opened Validation
  import opened MergeConfigs
  import opened ConfigFiles

  // ---- what is written ----

  /** A community that is given by reference is written without its string. */
  function WrittenCommunity(c: SnmpCommunity): SnmpCommunity {
    if HasReference(c) then c.(name := "") else c
  }

  function WrittenSnmp(snmp: Option<SnmpConfig>): Option<SnmpConfig> {
    if snmp.None? then None
    else
      var s := snmp.value;
      Some(s.(communities :=
        seq(|s.communities|, i requires 0 <= i < |s.communities| => WrittenCommunity(s.communities[i])),
              ownReads := if s.ownReads.Some? && s.ownReads.value.community.Some?
                then Some(s.ownReads.value.(community := Some(WrittenCommunity(s.ownReads.value.community.value))))
                else s.ownReads))
  }

  /** The service's own community, by reference, already read, while reads are off. */
  predicate OwnNameForgotten(snmp: Option<SnmpConfig>) {
    match snmp
    case Some(SnmpConfig(_, _, _, Some(SnmpReads(false, Some(own))))) => HasReference(own) && own.name != ""
    case _ => false
  }

  /** A string given by reference is never written, one given as it stands always is. */
  lemma OnlyReferencesWritten(c: SnmpCommunity)
    ensures WrittenCommunity(c) == c.(name := WrittenCommunity(c).name)
    ensures WrittenCommunity(c).name == if c.nameFile.Some? || c.nameCredential.Some? then "" else c.name
  {
  }

  /** Written and read again, SNMP strings are what they would have been read as, unless reads
      are off and the own community had been read already: it is not read again. */
  lemma SecretsComeBack(env: Secrets, snmp: Option<SnmpConfig>)
    requires SnmpResolves(env, snmp)
    ensures SnmpResolves(env, WrittenSnmp(snmp))
    ensures ResolveSnmp(env, WrittenSnmp(snmp)) == ResolveSnmp(env, snmp) <==> !OwnNameForgotten(snmp)
  {
    if snmp.Some? {
      var cs, ws := snmp.value.communities, WrittenSnmp(snmp).value.communities;
      forall c: SnmpCommunity | ResolveCommunity(env, c).Ok?
        ensures ResolveCommunity(env, WrittenCommunity(c)) == ResolveCommunity(env, c)
      {
      }
      assert forall i :: 0 <= i < |cs| ==> ResolveCommunity(env, ws[i]) == ResolveCommunity(env, cs[i]);
      assert ResolveCommunities(env, ws) == ResolveCommunities(env, cs);
    }
  }

  function WrittenPorts(sw: SwitchConfig): (r: seq<YamlPort>)
    ensures |r| == |sw.ports|
  {
    seq(|sw.ports|, i requires 0 <= i < |sw.ports| => Written(sw.vlans, sw.ports[i]))
  }

  function WrittenSwitch(sw: SwitchConfig): YamlSwitch {
    YamlSwitch(sw.(snmp := WrittenSnmp(sw.snmp)), WrittenPorts(sw))
  }

  function WrittenFile(priority: u16, switches: seq<SwitchConfig>): YamlFile {
    YamlFile(Some(priority), seq(|switches|, i requires 0 <= i < |switches| => WrittenSwitch(switches[i])))
  }

  /** A switch as it is parsed from what was written for it. */
  function Reread(sw: SwitchConfig): SwitchConfig { ParseSwitch(WrittenSwitch(sw)) }

  // ---- where it is written ----

  function WithoutFile(files: seq<File>, name: string): seq<File> {
    if files == [] then []
    else if files[0].name == name then WithoutFile(files[1..], name)
    else [files[0]] + WithoutFile(files[1..], name)
  }

  function InsertFile(files: seq<File>, f: File): seq<File> {
    if files == [] || StringLess(f.name, files[0].name) then [f] + files else [files[0]] + InsertFile(files[1..], f)
  }

  function PutFile(files: seq<File>, f: File): seq<File> { InsertFile(WithoutFile(files, f.name), f) }

  function WriteFile(d: Disk, folder: string, f: File): Disk {
    Disk(d.mainFile, if d.mainFile == Join(folder, f.name) then f.content else d.main,
         seq(|d.folders|, i requires 0 <= i < |d.folders| =>
           if d.folders[i].path == folder then d.folders[i].(files := PutFile(d.folders[i].files, f))
           else d.folders[i]))
  }

  /** A written file is there once, and no file of another name is lost or added. */
  lemma PutFileKeeps(files: seq<File>, f: File)
    ensures forall x :: x in PutFile(files, f) <==> x == f || (x in files && x.name != f.name)
  {
    WithoutFileIs(files, f.name);
    InsertFileIs(WithoutFile(files, f.name), f);
  }

  lemma {:induction false} WithoutFileIs(files: seq<File>, name: string)
    ensures forall x :: x in WithoutFile(files, name) <==> x in files && x.name != name
  {
    if files != [] { WithoutFileIs(files[1..], name); }
  }

  lemma {:induction false} InsertFileIs(files: seq<File>, f: File)
    ensures forall x :: x in InsertFile(files, f) <==> x == f || x in files
  {
    if files != [] && !StringLess(f.name, files[0].name) { InsertFileIs(files[1..], f); }
  }

  // ---- saving ----

  predicate EndsWith(s: string, suffix: string) { |suffix| <= |s| && s[|s| - |suffix|..] == suffix }

  predicate HasDotDot(s: string) { exists i :: 0 <= i < |s| - 1 && s[i] == '.' && s[i + 1] == '.' }

  predicate FilenameOk(name: string) {
    !HasDotDot(name) && '/' !in name && '\\' !in name && (EndsWith(name, ".yaml") || EndsWith(name, ".yml"))
  }

  ghost function ExternalIds(d: Disk, switchId: string, excluding: string): set<u16> {
    set id: u16 | 0 <= id < 0x1_0000 && KnownExternally(d, switchId, excluding, id)
  }

  /** What the overlay's check makes of each switch, if it accepts them all. */
  ghost predicate AllAccepted(d: Disk, path: string, switches: seq<SwitchConfig>, accepted: seq<SwitchConfig>) {
    |accepted| == |switches|
    && forall i :: 0 <= i < |switches| ==>
      ValidateOverlay(switches[i], ExternalIds(d, switches[i].id, path)) == Ok(accepted[i])
  }

  ghost predicate SaveAllowed(d: Disk, filename: string, priority: u16, switches: seq<SwitchConfig>) {
    && FilenameOk(filename) && 11 <= priority <= 9999
    && d.folders != [] && d.folders[0].isDirectory
    && (forall i :: 0 <= i < |switches| ==>
          ValidateOverlay(switches[i], ExternalIds(d, switches[i].id, Join(d.folders[0].path, filename))).Ok?)
  }

  /** One save of an overlay: the disk before, the request, its switches as saved, the disk after. */
  datatype Save = Save(
    before: Disk, filename: string, priority: u16, switches: seq<SwitchConfig>,
    accepted: seq<SwitchConfig>, after: Disk)
  {
    /** Overlays go to the first folder. */
    function Folder(): string { if before.folders == [] then "" else before.folders[0].path }

    function Path(): string { Join(Folder(), filename) }

    function Written(): File { File(filename, Some(WrittenFile(priority, accepted))) }

    /** What one of its switches is as a source of the merge. */
    function Own(k: nat): Source
      requires k < |accepted|
    {
      Source(Reread(accepted[k]), priority, Path())
    }

    ghost function External(k: nat): set<u16>
      requires k < |switches|
    {
      ExternalIds(before, switches[k].id, Path())
    }

    /** The overlay was accepted and written. */
    ghost predicate Done() {
      && SaveAllowed(before, filename, priority, switches)
      && AllAccepted(before, Path(), switches, accepted)
      && after == WriteFile(before, Folder(), Written())
    }
  }

  /** `save_overlay`. */
  method SaveOverlay(d: Disk, filename: string, priority: u16, switches: seq<SwitchConfig>)
    returns (r: Result<Disk>, ghost accepted: seq<SwitchConfig>)
    ensures r.Ok? <==> SaveAllowed(d, filename, priority, switches)
    ensures r.Ok? ==> Save(d, filename, priority, switches, accepted, r.value).Done()
  {
    accepted := [];
    if !FilenameOk(filename) || priority <= 10 || priority > 9999 || d.folders == [] { return Err, []; }
    var path := Join(d.folders[0].path, filename);
    var ready: seq<SwitchConfig> := [];
    for i := 0 to |switches|
      invariant |ready| == i
      invariant forall k :: 0 <= k < i ==>
        ValidateOverlay(switches[k], ExternalIds(d, switches[k].id, path)) == Ok(ready[k])
    {
      var external := KnownExternalVlanIds(d, switches[i].id, path);
      assert external == ExternalIds(d, switches[i].id, path);
      var sw := ValidateOverlayConfig(switches[i], external);
      if sw.Err? { return Err, []; }
      ready := ready + [sw.value];
    }
    var file := WriteYaml(priority, ready);
    if !d.folders[0].isDirectory { return Err, []; }
    accepted := ready;
    r := Ok(WriteFile(d, d.folders[0].path, File(filename, Some(file))));
  }

  method WriteYaml(priority: u16, switches: seq<SwitchConfig>) returns (file: YamlFile)
    ensures file == WrittenFile(priority, switches)
  {
    var ys: seq<YamlSwitch> := [];
    for i := 0 to |switches|
      invariant ys == WrittenFile(priority, switches).switches[..i]
    {
      var ports := PreferVlanNames(switches[i].vlans, switches[i].ports);
      assert ports == WrittenPorts(switches[i]);
      ys := ys + [YamlSwitch(switches[i].(snmp := WrittenSnmp(switches[i].snmp)), ports)];
    }
    file := YamlFile(Some(priority), ys);
  }

  // ---- an accepted overlay can be read ----

  lemma ExternalIsValid(d: Disk, switchId: string, excluding: string, id: u16)
    requires KnownExternally(d, switchId, excluding, id)
    ensures ValidVlanId(id)
  {
    if d.mainFile != excluding && LoadFile(d.main, d.mainFile, false).Ok? &&
      Declares(LoadFile(d.main, d.mainFile, false).value, switchId, id)
    {
      LoadFileIsSound(d.main, d.mainFile, false);
    } else {
      var f :| f in d.folders && ScanFolder(f).Ok? && DeclaredIn(ScanFolder(f).value, switchId, excluding, id);
      ScanIsSound(f);
      var c :| c in ScanFolder(f).value && c.file != excluding && Declares(c, switchId, id);
    }
  }

  /** What an accepted overlay switch is like. */
  predicate Ready(sw: SwitchConfig, external: set<u16>) {
    && Expanded(sw) && DistinctPortIds(sw.ports) && Unambiguous(sw.vlans)
    && (forall i :: 0 <= i < |sw.ports| ==> sw.ports[i].Resolved())
    && (forall i :: 0 <= i < |sw.vlans| ==> ValidVlanId(sw.vlans[i].id))
    && OverlayRefsOk(sw, external)
  }

  lemma AcceptedIsReady(sw: SwitchConfig, external: set<u16>)
    requires ValidateOverlay(sw, external).Ok?
    ensures Ready(ValidateOverlay(sw, external).value, external) && ValidateOverlay(sw, external).value.id == sw.id
  {
    var sw1 := Expand(sw).value;
    var sw2 := Resolve(sw1, true).value;
    ExpandMakesExpanded(sw);
    ResolveSettles(sw1, true, true);
    forall i | 0 <= i < |sw1.ports| ensures sw2.ports[i].portId == sw1.ports[i].portId {
      assert ResolvePort(sw1.vlans, sw1.ports[i], true).Ok?;
    }
  }

  /** The overlay check leaves alone exactly the switches that are ready and whose secrets,
      vendor limits and VLAN ids are in order; so what it accepted it accepts again. */
  lemma OverlayCheckIsProjection(sw: SwitchConfig, external: set<u16>)
    ensures ValidateOverlay(sw, external) == Ok(sw) <==>
      Ready(sw, external) && SourcesNamed(sw.snmp) && VendorSupports(sw) && DistinctVlanIds(sw.vlans)
    ensures ValidateOverlay(sw, external).Ok? ==>
      ValidateOverlay(ValidateOverlay(sw, external).value, external) == ValidateOverlay(sw, external)
  {
    if ValidateOverlay(sw, external).Ok? {
      AcceptedIsReady(sw, external);
      ReadyIsAccepted(ValidateOverlay(sw, external).value, external);
    }
    if Ready(sw, external) && SourcesNamed(sw.snmp) && VendorSupports(sw) && DistinctVlanIds(sw.vlans) {
      ReadyIsAccepted(sw, external);
    }
  }

  lemma ReadyIsAccepted(sw: SwitchConfig, external: set<u16>)
    requires Ready(sw, external) && SourcesNamed(sw.snmp) && VendorSupports(sw) && DistinctVlanIds(sw.vlans)
    ensures ValidateOverlay(sw, external) == Ok(sw)
  {
    ExpandedStaysPut(sw);
    forall i | 0 <= i < |sw.ports| ensures ResolvePort(sw.vlans, sw.ports[i], true) == Ok(sw.ports[i]) {
      assert sw.ports[i].Resolved();
    }
    assert ResolvePorts(sw.vlans, sw.ports, true) == sw.ports;
  }

  lemma RereadLoads(sw: SwitchConfig, external: set<u16>)
    requires Ready(sw, external) && forall id :: id in external ==> ValidVlanId(id)
    ensures Expand(Reread(sw)) == Ok(Reread(sw))
    ensures WellFormed(Reread(sw)) <==> sw.id != ""
  {
    var r := Reread(sw);
    forall i | 0 <= i < |r.ports| ensures r.ports[i].portId == sw.ports[i].portId && ValidVlanId(r.ports[i].vlan) {
    }
    ExpandedStaysPut(r);
  }

  predicate NoEmptyId(switches: seq<SwitchConfig>) { forall i :: 0 <= i < |switches| ==> switches[i].id != "" }

  function RereadAll(switches: seq<SwitchConfig>): (r: seq<SwitchConfig>)
    ensures |r| == |switches|
  {
    seq(|switches|, i requires 0 <= i < |switches| => Reread(switches[i]))
  }

  /** A saved overlay loads exactly when none of its switches has an empty id: the check
      before saving does not look at the id, the one at loading does. It loads the same
      from a folder and as a main file. */
  lemma SavedFileLoads(s: Save, fromFolder: bool)
    requires s.Done()
    ensures LoadFile(s.Written().content, s.Path(), fromFolder) ==
      if NoEmptyId(s.switches) then Ok(Loaded(RereadAll(s.accepted), s.priority, s.Path())) else Err
  {
    var parsed := Parse(s.Written().content.value).switches;
    forall i | 0 <= i < |s.accepted|
      ensures parsed[i] == Reread(s.accepted[i]) && Expand(parsed[i]) == Ok(parsed[i])
      ensures WellFormed(parsed[i]) <==> s.switches[i].id != ""
    {
      forall id | id in s.External(i) ensures ValidVlanId(id) {
        ExternalIsValid(s.before, s.switches[i].id, s.Path(), id);
      }
      AcceptedIsReady(s.switches[i], s.External(i));
      RereadLoads(s.accepted[i], s.External(i));
    }
    if SwitchesLoad(parsed) { assert LoadedSwitches(parsed) == RereadAll(s.accepted); }
  }
}
