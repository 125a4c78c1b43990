/** Which VLANs of other files the save check knows, and what its documentation says
    (switch-configurator/src/config.rs, `known_external_vlan_ids`). */
module ExternalVlans {
  import opened Basics
  import opened Models
  import opened PortRange
  import opened MergeConfigs
  import opened ConfigFiles
  import opened SaveOutcome

  /** The file loads, is not the excluded one, and declares the id for the switch. */
  ghost predicate FileSays(path: string, x: File, excluding: string, switchId: string, id: u16) {
    var file := Join(path, x.name);
    var loaded := LoadFile(x.content, file, true);
    Scanned(x.name) && file != excluding && loaded.Ok? && Declares(loaded.value, switchId, id)
  }

  ghost predicate MainSays(d: Disk, excluding: string, switchId: string, id: u16) {
    var loaded := LoadFile(d.main, d.mainFile, false);
    d.mainFile != excluding && loaded.Ok? && Declares(loaded.value, switchId, id)
  }

  predicate HasBroken(f: Folder) { exists x <- f.files :: FileFails(f.path, x) }

  /** A file of a folder says so; `intact` asks for a folder without a broken file. */
  ghost predicate FolderSays(d: Disk, intact: bool, excluding: string, switchId: string, id: u16) {
    exists f, x :: f in d.folders && f.isDirectory && x in f.files && FileSays(f.path, x, excluding, switchId, id)
      && (intact ==> !HasBroken(f))
  }

  /** The documentation: a file that does not load is skipped, and nothing else. */
  ghost predicate Documented(d: Disk, switchId: string, excluding: string, id: u16) {
    MainSays(d, excluding, switchId, id) || FolderSays(d, false, excluding, switchId, id)
  }

  /** The code, said of the files: a folder with a file that does not load is skipped as a whole. */
  lemma KnownByFiles(d: Disk, switchId: string, excluding: string, id: u16)
    ensures KnownExternally(d, switchId, excluding, id) <==>
      MainSays(d, excluding, switchId, id) || FolderSays(d, true, excluding, switchId, id)
  {
    if exists f :: f in d.folders && ScanFolder(f).Ok? && DeclaredIn(ScanFolder(f).value, switchId, excluding, id) {
      var f :| f in d.folders && ScanFolder(f).Ok? && DeclaredIn(ScanFolder(f).value, switchId, excluding, id);
      var c :| c in ScanFolder(f).value && c.file != excluding && Declares(c, switchId, id);
      LoadFilesExact(f.path, f.files);
      var x :| x in f.files && Scanned(x.name) && LoadFile(x.content, Join(f.path, x.name), true) == Ok(c);
      LoadFileIsSound(x.content, Join(f.path, x.name), true);
      assert FileSays(f.path, x, excluding, switchId, id);
    }
    if FolderSays(d, true, excluding, switchId, id) {
      var f, x :| f in d.folders && f.isDirectory && x in f.files && FileSays(f.path, x, excluding, switchId, id) &&
        !HasBroken(f);
      LoadFilesExact(f.path, f.files);
      var c := LoadFile(x.content, Join(f.path, x.name), true).value;
      LoadFileIsSound(x.content, Join(f.path, x.name), true);
      assert LoadedFrom(f.path, f.files, c);
      assert DeclaredIn(ScanFolder(f).value, switchId, excluding, id);
    }
  }

  /** The code never knows more than documented, and knows as much when no file is broken. */
  lemma KnownAsDocumented(d: Disk, switchId: string, excluding: string, id: u16)
    ensures KnownExternally(d, switchId, excluding, id) ==> Documented(d, switchId, excluding, id)
    ensures (forall f :: f in d.folders ==> !HasBroken(f)) ==>
      (Documented(d, switchId, excluding, id) <==> KnownExternally(d, switchId, excluding, id))
  {
    KnownByFiles(d, switchId, excluding, id);
  }

  /** A loadable file beside a broken one says so. */
  ghost predicate BesideBroken(d: Disk, f: Folder, x: File, excluding: string, switchId: string, id: u16) {
    f in d.folders && f.isDirectory && HasBroken(f) && x in f.files && FileSays(f.path, x, excluding, switchId, id)
  }

  /** Exactly when the code knows as much as documented: each id that the loadable files of a
      folder with a broken file declare is also declared by the main file or by a file of a
      folder without a broken one. */
  lemma KnowsAsMuchExactly(d: Disk, switchId: string, excluding: string)
    ensures (forall id :: Documented(d, switchId, excluding, id) ==> KnownExternally(d, switchId, excluding, id))
      <==> (forall f, x, id :: BesideBroken(d, f, x, excluding, switchId, id) ==>
              MainSays(d, excluding, switchId, id) || FolderSays(d, true, excluding, switchId, id))
  {
    forall id: u16 { KnownByFiles(d, switchId, excluding, id); }
    forall f, x, id | BesideBroken(d, f, x, excluding, switchId, id) ensures Documented(d, switchId, excluding, id) {}
    forall id | Documented(d, switchId, excluding, id)
      ensures KnownExternally(d, switchId, excluding, id) || exists f, x ::
        BesideBroken(d, f, x, excluding, switchId, id)
    {
      if !MainSays(d, excluding, switchId, id) {
        var f, x :| f in d.folders && f.isDirectory && x in f.files && FileSays(f.path, x, excluding, switchId, id);
        if HasBroken(f) { assert BesideBroken(d, f, x, excluding, switchId, id); }
      }
    }
  }

  // ---- one broken file ----

  const VLAN_TEN := SwitchConfig(
    "sw1", None, None, None, None, [Vlan(10, "office", None, NoAddress)], [], [], None, None, DEFAULT_SETTINGS)
  const GOOD_FILE := File("a.yaml", Some(YamlFile(None, [YamlSwitch(VLAN_TEN, [])])))
  const BROKEN_FILE := File("b.yaml", None)
  const FOLDER := Folder("conf.d", true, [GOOD_FILE, BROKEN_FILE])
  const BROKEN_FOLDER := Disk("main.yaml", None, [FOLDER])

  lemma GoodFileLoads()
    ensures LoadFile(GOOD_FILE.content, Join("conf.d", "a.yaml"), true) ==
      Ok(Loaded([VLAN_TEN], 100, Join("conf.d", "a.yaml")))
  {
    var parsed := Parse(GOOD_FILE.content.value).switches;
    assert parsed[0] == VLAN_TEN && parsed == [VLAN_TEN];
    ExpandedStaysPut(VLAN_TEN);
    assert SwitchesLoad(parsed) && LoadedSwitches(parsed) == [VLAN_TEN];
  }

  lemma GoodFileSays()
    ensures FileSays("conf.d", GOOD_FILE, Join("conf.d", "new.yaml"), "sw1", 10)
  {
    GoodFileLoads();
    SavedNameIsScanned("a.yaml");
    assert VLAN_TEN in [VLAN_TEN] && VLAN_TEN.vlans[0] in VLAN_TEN.vlans;
    assert Join("conf.d", "a.yaml")[7] != Join("conf.d", "new.yaml")[7];
  }

  lemma HiddenBeside(d: Disk, f: Folder, good: File, broken: File, excluding: string, switchId: string, id: u16)
    requires d.main.None? && d.folders == [f] && f.isDirectory && good in f.files && broken in f.files
    requires FileSays(f.path, good, excluding, switchId, id) && FileFails(f.path, broken)
    ensures Documented(d, switchId, excluding, id) && !KnownExternally(d, switchId, excluding, id)
  {
    KnownByFiles(d, switchId, excluding, id);
  }

  /** One broken file, and VLAN 10 of the file beside it is not known any more. */
  lemma BrokenFileHidesFolder()
    ensures Documented(BROKEN_FOLDER, "sw1", Join("conf.d", "new.yaml"), 10)
    ensures !KnownExternally(BROKEN_FOLDER, "sw1", Join("conf.d", "new.yaml"), 10)
  {
    GoodFileSays();
    SavedNameIsScanned("b.yaml");
    HiddenBeside(BROKEN_FOLDER, FOLDER, GOOD_FILE, BROKEN_FILE, Join("conf.d", "new.yaml"), "sw1", 10);
  }
}
