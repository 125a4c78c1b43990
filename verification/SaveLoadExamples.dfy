/** Concrete saves: one that comes back, and one for each way in which a save goes wrong. */
module SaveLoadExamples {
  import opened Basics
  import opened Models
  import opened VlanNames
  import opened PortRange
  import opened RowMerge
  import opened Merge
  import opened Validation
  import opened MergeConfigs
  import opened ConfigFiles
  import opened Store
  import opened SaveLoad
  import opened SaveOutcome
  import opened SaveLoadTheorems

  const VLAN := Vlan(10, "lan", None, NoAddress)
  const PORT := Port("port" + ToDecimal(1), 10, [], PortExtras(Access, None, true, false, false, Auto), None, [])
  const OVERLAY := SwitchConfig(
    "sw1", Some("mine"), Some(Fortiswitch124F_FPOE), Some("192.0.2.1"), Some(Credentials("admin", None, 22)),
    [VLAN], [PORT], [], None, None, DEFAULT_SETTINGS)
  const OTHER := SwitchConfig("sw1", Some("other"), None, None, None, [], [], [], None, None, DEFAULT_SETTINGS)
  const EMPTY_FOLDER := Folder("conf.d", true, [])

  /** An empty folder beside a main file with these switches. */
  function DiskWith(main: seq<YamlSwitch>): Disk {
    Disk("main.yaml", Some(YamlFile(None, main)), [EMPTY_FOLDER])
  }

  /** The overlay, under an id of its own, saved under priority 20. */
  function SaveOf(before: Disk, filename: string, id: string): Save {
    var overlay := OVERLAY.(id := id);
    Save(before, filename, 20, [overlay], [overlay],
         WriteFile(before, "conf.d", File(filename, Some(WrittenFile(20, [overlay])))))
  }

  lemma OverlayIsReady(id: string, external: set<u16>)
    ensures ValidateOverlay(OVERLAY.(id := id), external) == Ok(OVERLAY.(id := id))
  {
    var overlay := OVERLAY.(id := id);
    IdShape("port", 1);
    assert VLAN in overlay.vlans && Referable(overlay, external, 10);
    ReadyIsAccepted(overlay, external);
  }

  lemma SaveIsDone(main: seq<YamlSwitch>, filename: string, id: string)
    requires FilenameOk(filename)
    ensures SaveOf(DiskWith(main), filename, id).Done()
  {
    var s := SaveOf(DiskWith(main), filename, id);
    OverlayIsReady(id, s.External(0));
  }

  lemma EmptyFolderLoads(main: seq<YamlSwitch>, c: Loaded)
    requires LoadFile(DiskWith(main).main, "main.yaml", false) == Ok(c)
    ensures LoadSources(DiskWith(main)) == Ok([c])
  {
    var nothing: seq<Loaded> := [];
    assert [EMPTY_FOLDER][..0] == [] && LoadFolders([EMPTY_FOLDER][..0]) == Ok(nothing);
    assert ScanFolder(EMPTY_FOLDER) == Ok(nothing) && LoadFolders([EMPTY_FOLDER]) == Ok(nothing + nothing);
    assert [c] + (nothing + nothing) == [c];
  }

  const MAIN_LOADED := Loaded([], 50, "main.yaml")

  lemma EmptyMainLoads()
    ensures LoadSources(DiskWith([])) == Ok([MAIN_LOADED]) && Loads(DiskWith([]))
  {
    assert Parse(YamlFile(None, [])).switches == [] && LoadedSwitches([]) == [];
    EmptyFolderLoads([], MAIN_LOADED);
    NoConflictPairwise([MAIN_LOADED]);
  }

  // ---- what goes wrong ----

  /** An overlay with an empty id is accepted and saved; nothing loads afterwards. */
  lemma EmptyIdBreaksLoading()
    ensures var s := SaveOf(DiskWith([]), "a.yaml", ""); s.Done() && Loads(s.before) && !Loads(s.after)
  {
    var s := SaveOf(DiskWith([]), "a.yaml", "");
    SaveIsDone([], "a.yaml", "");
    EmptyMainLoads();
    assert s.switches[0].id == "";
    SaveMayBreakLoading(s);
  }

  /** An overlay named `.yaml` is accepted and saved, and never read. */
  lemma BareExtensionIsNotRead()
    ensures var s := SaveOf(DiskWith([]), ".yaml", "sw1");
      s.Done() && Loads(s.after) && LoadSources(s.after).Ok? && SavedSource(s) !in LoadSources(s.after).value
  {
    var s := SaveOf(DiskWith([]), ".yaml", "sw1");
    SaveIsDone([], ".yaml", "sw1");
    EmptyMainLoads();
    assert s.Path()[0] != "main.yaml"[0];
    LoadSourcesAfter(s);
    SaveMayBreakLoading(s);
    SourcesAfter(s);
    forall c | OtherSource(s, c) ensures c == MAIN_LOADED { EmptyMainLoads(); }
    assert SavedSource(s).priority == 20;
  }

  const OTHER_LOADED := Loaded([OTHER], 50, "main.yaml")

  lemma OtherMainLoads()
    ensures LoadSources(DiskWith([YamlSwitch(OTHER, [])])) == Ok([OTHER_LOADED])
    ensures LoadFile(DiskWith([YamlSwitch(OTHER, [])]).main, "main.yaml", false) == Ok(OTHER_LOADED)
    ensures Loads(DiskWith([YamlSwitch(OTHER, [])]))
  {
    var parsed := Parse(YamlFile(None, [YamlSwitch(OTHER, [])])).switches;
    assert parsed[0] == OTHER && parsed == [OTHER];
    ExpandedStaysPut(OTHER);
    assert SwitchesLoad(parsed) && LoadedSwitches(parsed) == [OTHER];
    EmptyFolderLoads([YamlSwitch(OTHER, [])], OTHER_LOADED);
    NoConflictPairwise([OTHER_LOADED]);
  }

  const CONTRADICTION := SaveOf(DiskWith([YamlSwitch(OTHER, [])]), "a.yaml", "sw1")

  lemma ContradictionIsSaved()
    ensures CONTRADICTION.Done() && IsRead(CONTRADICTION) && NoEmptyId(CONTRADICTION.switches)
  {
    SaveIsDone([YamlSwitch(OTHER, [])], "a.yaml", "sw1");
  }

  lemma ContradictionDoesNotFit()
    ensures !Fits(CONTRADICTION)
  {
    var s := CONTRADICTION;
    OtherMainLoads();
    assert s.Path()[0] != "main.yaml"[0];
    assert OtherSource(s, OTHER_LOADED) && OTHER in OTHER_LOADED.switches && OtherSays(s, OTHER);
    assert s.accepted[0] in s.accepted && "mine"[0] != "other"[0] && !Compatible(s.accepted[0], OTHER);
  }

  /** An overlay whose hostname contradicts the main file is accepted and saved; every file
      still loads, and the load as a whole fails. */
  lemma ContradictionBreaksLoading()
    ensures CONTRADICTION.Done() && NoEmptyId(CONTRADICTION.switches) && Loads(CONTRADICTION.before)
    ensures LoadSources(CONTRADICTION.after).Ok? && !Loads(CONTRADICTION.after)
  {
    ContradictionIsSaved();
    ContradictionDoesNotFit();
    OtherMainLoads();
    LoadSourcesAfter(CONTRADICTION);
    SaveMayBreakLoading(CONTRADICTION);
  }

  // ---- and what goes right ----

  /** One source with one VLAN and one port merges to itself. */
  lemma OneSourceMerges(x: Source)
    requires |x.sw.vlans| == 1 && |x.sw.ports| == 1 && x.sw.portMirrors == [] && x.sw.snmp == None &&
      x.sw.managementVlan == None
    ensures StableSort([x]) == [x] && MergedSwitch(x.sw.id, [x]) == x.sw
  {
    SortOne(x, PRIORITY);
    OneSourceRows(x, VLANS);
    OneSourceRows(x, PORTS);
    assert Entries([x], MIRRORS) == [];
    assert Merged([x], MIRRORS) == OrInsertAll([], MIRRORS.lt);
    assert RowsOf(Merged([x], MIRRORS)) == [];
    assert [x][1..] == [] && !HasSnmp([x]);
    OneSourceField(x, HOSTNAME);
    OneSourceField(x, MODEL);
    OneSourceField(x, MANAGEMENT_IP);
    OneSourceField(x, CREDENTIALS);
  }

  lemma OneSourceField<T>(x: Source, f: SwitchConfig -> Option<T>)
    ensures FirstSome([x], f) == f(x.sw)
  {
    assert [x][1..] == [];
  }

  lemma OneSourceRows<K(!new), R>(x: Source, c: Component<K, R>)
    requires |c.rowsOf(x.sw)| == 1
    ensures RowsOf(Merged([x], c)) == c.rowsOf(x.sw)
  {
    SortOne(x, PRIORITY);
    assert [x][..0] == [];
    var es := RowEntries(c.rowsOf(x.sw), x.file, c);
    assert Entries([x], c) == [] + es == es;
    OneEntry(es, c.lt);
  }

  lemma OneEntry<K(!new), R>(es: seq<Entry<K, R>>, lt: (K, K) -> bool)
    requires |es| == 1
    ensures OrInsertAll(es, lt) == es
  {
    assert es[..0] == [];
    assert OrInsert([], es[0], lt) == [es[0]] + [];
  }

  lemma RereadPasses(env: Secrets)
    ensures PostMerge(env, Reread(OVERLAY)) == Ok(OVERLAY)
  {
    var sw := Reread(OVERLAY);
    assert [VLAN][..0] == [] && NameOf([VLAN], 10) == Some("lan") && IdOf([VLAN], "lan") == Some(10);
    assert WrittenRefs([VLAN], []) == [] && !AnyName([]) && IdsOnly([]) == [];
    assert sw.ports == [PORT.(vlan := 1, vlanName := Some("lan"))];
    assert ResolvePort([VLAN], sw.ports[0], false) == Ok(PORT);
    assert ResolvePorts([VLAN], sw.ports, false) == [PORT];
    assert Resolve(sw, false) == Ok(OVERLAY);
    assert NameOk(Fortiswitch124F_FPOE, VLAN) && VLAN in OVERLAY.vlans && Defined(OVERLAY, 10);
    assert PortRefsOk(OVERLAY, PORT, true);
    RefsOkFixed(OVERLAY);
  }

  const GOOD := SaveOf(DiskWith([]), "a.yaml", "sw1")
  const OVERLAY_LOADED := Loaded([Reread(OVERLAY)], 20, GOOD.Path())

  lemma GoodIsSaved()
    ensures GOOD.Done() && GOOD.accepted == [OVERLAY] && IsRead(GOOD)
  {
    SaveIsDone([], "a.yaml", "sw1");
  }

  lemma OneFileLoads(f: Folder, x: File, c: Loaded)
    requires f.isDirectory && f.files == [x] && Scanned(x.name) &&
      LoadFile(x.content, Join(f.path, x.name), true) == Ok(c)
    ensures ScanFolder(f) == Ok([c]) && LoadFolders([f]) == Ok([c])
  {
    var nothing: seq<Loaded> := [];
    assert [x][..0] == [] && [f][..0] == [];
    assert LoadFiles(f.path, [x][..0]) == Ok(nothing) && LoadFolders([f][..0]) == Ok(nothing);
    assert nothing + [c] == [c];
  }

  /** The sources after the save: the main file without switches, and the overlay. */
  lemma GoodLoads()
    ensures LoadSources(GOOD.after) == Ok([MAIN_LOADED, OVERLAY_LOADED])
  {
    GoodIsSaved();
    SavedNameIsScanned("a.yaml");
    SavedFileLoads(GOOD, true);
    assert RereadAll([OVERLAY]) == [Reread(OVERLAY)] && NoEmptyId([OVERLAY]);
    var f := Folder("conf.d", true, [GOOD.Written()]);
    assert PutFile([], GOOD.Written()) == [GOOD.Written()];
    assert |GOOD.after.folders| == 1 && GOOD.after.folders[0] == f && GOOD.after.folders == [f];
    OneFileLoads(f, GOOD.Written(), OVERLAY_LOADED);
    assert GOOD.Path()[0] != "main.yaml"[0];
    EmptyMainLoads();
    assert GOOD.after.main == GOOD.before.main;
    assert [MAIN_LOADED] + [OVERLAY_LOADED] == [MAIN_LOADED, OVERLAY_LOADED];
  }

  lemma GroupOfTwo(a: Loaded, b: Loaded, sw: SwitchConfig)
    requires a.switches == [] && b.switches == [sw]
    ensures Group([a, b], sw.id) == [Source(sw, b.priority, b.file)]
  {
    var nothing: seq<Source> := [];
    assert [a, b][..1] == [a] && [a][..0] == [] && [sw][..0] == [];
    assert Group([a][..0], sw.id) == nothing && Group([a], sw.id) == nothing;
    assert SourcesIn([sw][..0], b, sw.id) == nothing;
    assert SourcesIn([sw], b, sw.id) == nothing + [Source(sw, b.priority, b.file)];
  }

  lemma OnlySource()
    ensures LoadSources(GOOD.after).Ok? && Group(LoadSources(GOOD.after).value, "sw1") == [GOOD.Own(0)]
  {
    GoodLoads();
    GroupOfTwo(MAIN_LOADED, OVERLAY_LOADED, Reread(OVERLAY));
  }

  lemma GoodFate(env: Secrets)
    ensures LoadSources(GOOD.after).Ok? && Fate(env, LoadSources(GOOD.after).value, "sw1") == Ok(OVERLAY)
  {
    OnlySource();
    OneSourceMerges(GOOD.Own(0));
    RereadPasses(env);
  }

  lemma GoodIds()
    ensures LoadSources(GOOD.after).Ok? && IdsOf(LoadSources(GOOD.after).value) == {"sw1"}
  {
    GoodLoads();
    var cs := LoadSources(GOOD.after).value;
    assert OVERLAY_LOADED in cs && Reread(OVERLAY) in OVERLAY_LOADED.switches && Reread(OVERLAY).id == "sw1";
  }

  lemma GoodHasNoContradiction()
    ensures Fits(GOOD) && NoEmptyId(GOOD.switches)
  {
    assert GOOD.Path()[0] != "main.yaml"[0];
    EmptyMainLoads();
    forall c | OtherSource(GOOD, c) ensures c == MAIN_LOADED {}
  }

  lemma OneSortsOut(env: Secrets, cs: seq<Loaded>, sw: SwitchConfig)
    requires Fate(env, cs, sw.id) == Ok(sw) && IdsOf(cs) == {sw.id}
    ensures MergedFrom(env, cs, [sw], [])
  {
    var nothing: seq<Failure> := [];
    assert [sw][0].id == sw.id && Among([sw], sw.id);
    assert SortedOut(env, cs, IdsOf(cs), [sw], nothing) && FailedIds(nothing) == [];
  }

  lemma GoodSortsOut(env: Secrets)
    ensures LoadSources(GOOD.after).Ok? && MergedFrom(env, LoadSources(GOOD.after).value, [OVERLAY], [])
  {
    GoodFate(env);
    GoodIds();
    OneSortsOut(env, LoadSources(GOOD.after).value, OVERLAY);
  }

  lemma GoodYields(env: Secrets)
    ensures Yields(env, GOOD, [OVERLAY], [], 0, OVERLAY)
  {
    GoodIsSaved();
    EmptyMainLoads();
    GoodHasNoContradiction();
    SaveMayBreakLoading(GOOD);
    FilesAfter(GOOD, 0);
    GoodSortsOut(env);
  }

  lemma GoodWins()
    ensures LoadSources(GOOD.after).Ok? && GOOD.accepted == [OVERLAY]
    ensures WinsMerge(GOOD, 0, PORT) && NobodyRenames(SourcesOf(GOOD, 0), GOOD.Own(0))
  {
    OnlySource();
    OwnRow(OVERLAY, PORT);
    assert GOOD.Own(0) in [GOOD.Own(0)];
    BestDecides([GOOD.Own(0)], GOOD.Own(0), PORTS, PORT.portId);
    AloneRenamesNothing([GOOD.Own(0)], GOOD.Own(0));
  }

  /** Saved, loaded and merged: the load succeeds, yields the overlay as it was saved, and
      the overlay wins its port. So all that the theorems assume can be met. */
  lemma OverlayComesBack(env: Secrets)
    ensures Yields(env, GOOD, [OVERLAY], [], 0, OVERLAY) && IsRead(GOOD) && LoadSources(GOOD.after).Ok?
    ensures WinsMerge(GOOD, 0, PORT) && NobodyRenames(SourcesOf(GOOD, 0), GOOD.Own(0))
  {
    GoodIsSaved();
    GoodYields(env);
    GoodWins();
  }
}
