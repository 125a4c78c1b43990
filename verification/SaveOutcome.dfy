/** Whether the configuration still loads after an overlay was saved
    (switch-configurator/src/api/handlers.rs, `save_overlay`; config.rs, `load_multi`). */
module SaveOutcome {
  import opened Basics
  import opened Models
  import opened MergeConfigs
  import opened ConfigFiles
  import opened Store
  import opened SaveLoad

  // ---- will the saved file be read at all? ----

  lemma {:induction false} LastDotAt(s: string, k: nat)
    requires k < |s| && s[k] == '.' && '.' !in s[k + 1..]
    ensures LastDot(s) == Some(k)
    decreases |s|
  {
    if k < |s| - 1 {
      assert s[k + 1..] == s[k + 1..|s| - 1] + [s[|s| - 1]];
      assert s[..|s| - 1][k + 1..] == s[k + 1..|s| - 1];
      LastDotAt(s[..|s| - 1], k);
    }
  }

  lemma ExtensionAt(name: string, stem: string, ext: string)
    requires name == stem + ['.'] + ext && '.' !in ext && ext != []
    ensures Extension(name) == if stem == [] then None else Some(ext)
  {
    assert name[|stem|] == '.' && name[|stem| + 1..] == ext;
    LastDotAt(name, |stem|);
  }

  /** A file name that may be saved is scanned unless it is only an extension. */
  lemma SavedNameIsScanned(name: string)
    requires FilenameOk(name)
    ensures Scanned(name) <==> name != ".yaml" && name != ".yml"
  {
    var ext := if EndsWith(name, ".yaml") then "yaml" else "yml";
    assert ['.'] + ext == if EndsWith(name, ".yaml") then ".yaml" else ".yml";
    var stem := name[..|name| - |ext| - 1];
    ExtensionAt(name, stem, ext);
    assert stem == [] ==> name == ['.'] + ext;
    assert |".yaml"| == 5 && |".yml"| == 4;
  }

  /** The written file is read: by the folder scan, or because it is the main file. */
  predicate IsRead(s: Save) {
    (s.filename != ".yaml" && s.filename != ".yml") || s.before.mainFile == s.Path()
  }

  // ---- the sources of a disk, file by file ----

  /** The file of that folder loads as `c`. */
  ghost predicate FileLoads(d: Disk, f: Folder, x: File, c: Loaded) {
    f in d.folders && x in f.files && Scanned(x.name) && LoadFile(x.content, Join(f.path, x.name), true) == Ok(c)
  }

  predicate FolderFails(f: Folder) {
    !f.isDirectory || exists x <- f.files :: FileFails(f.path, x)
  }

  lemma SourcesExact(d: Disk)
    ensures LoadSources(d).Ok? <==>
      LoadFile(d.main, d.mainFile, false).Ok? && forall f :: f in d.folders ==> !FolderFails(f)
    ensures LoadSources(d).Ok? ==> forall c :: c in LoadSources(d).value <==>
      LoadFile(d.main, d.mainFile, false) == Ok(c) || exists f, x :: FileLoads(d, f, x, c)
  {
    LoadFoldersExact(d.folders);
    forall f: Folder { LoadFilesExact(f.path, f.files); }
    if LoadSources(d).Ok? {
      forall c ensures c in LoadFolders(d.folders).value <==> exists f, x :: FileLoads(d, f, x, c) {
        if c in LoadFolders(d.folders).value {
          var f :| f in d.folders && c in ScanFolder(f).value;
          var x :| x in f.files && Scanned(x.name) && LoadFile(x.content, Join(f.path, x.name), true) == Ok(c);
          assert FileLoads(d, f, x, c);
        }
      }
    }
  }

  // ---- what a save does to them ----

  /** The file is not the one written. */
  predicate Untouched(s: Save, f: Folder, x: File) { f.path != s.Folder() || x.name != s.filename }

  /** What a file other than the written one loads as. */
  ghost predicate OtherSource(s: Save, c: Loaded) {
    || (s.before.mainFile != s.Path() && LoadFile(s.before.main, s.before.mainFile, false) == Ok(c))
    || exists f, x :: FileLoads(s.before, f, x, c) && Untouched(s, f, x)
  }

  /** What the overlay loads as. */
  function SavedSource(s: Save): Loaded { Loaded(RereadAll(s.accepted), s.priority, s.Path()) }

  /** Folder by folder, the files after a save are the untouched ones and the written one. */
  lemma FilesAfter(s: Save, i: nat)
    requires s.Done() && i < |s.before.folders|
    ensures |s.after.folders| == |s.before.folders|
    ensures var f, g := s.before.folders[i], s.after.folders[i];
      && g.path == f.path && g.isDirectory == f.isDirectory
      && forall x :: x in g.files <==>
        (x in f.files && Untouched(s, f, x)) || (f.path == s.Folder() && x == s.Written())
  {
    PutFileKeeps(s.before.folders[i].files, s.Written());
  }

  lemma FileLoadsAfter(s: Save, c: Loaded)
    requires s.Done()
    ensures (exists g, y :: FileLoads(s.after, g, y, c)) <==>
      || (exists f, x :: FileLoads(s.before, f, x, c) && Untouched(s, f, x))
      || (Scanned(s.filename) && LoadFile(s.Written().content, s.Path(), true) == Ok(c))
  {
    if exists g, y :: FileLoads(s.after, g, y, c) {
      var g, y :| FileLoads(s.after, g, y, c);
      var i :| 0 <= i < |s.after.folders| && s.after.folders[i] == g;
      FilesAfter(s, i);
      if y in s.before.folders[i].files && Untouched(s, s.before.folders[i], y) {
        assert FileLoads(s.before, s.before.folders[i], y, c);
      }
    }
    if exists f, x :: FileLoads(s.before, f, x, c) && Untouched(s, f, x) {
      var f, x :| FileLoads(s.before, f, x, c) && Untouched(s, f, x);
      var i :| 0 <= i < |s.before.folders| && s.before.folders[i] == f;
      FilesAfter(s, i);
      assert FileLoads(s.after, s.after.folders[i], x, c);
    }
    if Scanned(s.filename) && LoadFile(s.Written().content, s.Path(), true) == Ok(c) {
      FilesAfter(s, 0);
      assert FileLoads(s.after, s.after.folders[0], s.Written(), c);
    }
  }

  lemma FolderFailsAfter(s: Save)
    requires s.Done() && forall f :: f in s.before.folders ==> !FolderFails(f)
    ensures (forall g :: g in s.after.folders ==> !FolderFails(g)) <==> !FileFails(s.Folder(), s.Written())
  {
    forall i | 0 <= i < |s.before.folders|
      ensures FolderFails(s.after.folders[i]) <==>
        s.before.folders[i].path == s.Folder() && FileFails(s.Folder(), s.Written())
    {
      FilesAfter(s, i);
      assert s.before.folders[i] in s.before.folders;
      if s.before.folders[i].path == s.Folder() { assert s.Written() in s.after.folders[i].files; }
    }
    FilesAfter(s, 0);
    assert s.after.folders[0] in s.after.folders;
  }

  /** The sources after a save: the others, and the overlay if it is read. */
  lemma SourcesAfter(s: Save)
    requires s.Done() && LoadSources(s.after).Ok?
    ensures IsRead(s) ==> NoEmptyId(s.switches)
    ensures forall c :: c in LoadSources(s.after).value <==> OtherSource(s, c) || (IsRead(s) && c == SavedSource(s))
  {
    SourcesExact(s.after);
    SavedNameIsScanned(s.filename);
    SavedFileLoads(s, true);
    SavedFileLoads(s, false);
    FilesAfter(s, 0);
    if Scanned(s.filename) {
      assert s.after.folders[0] in s.after.folders && s.Written() in s.after.folders[0].files;
      assert !FileFails(s.Folder(), s.Written());
    }
    forall c ensures c in LoadSources(s.after).value <==> OtherSource(s, c) || (IsRead(s) && c == SavedSource(s)) {
      FileLoadsAfter(s, c);
    }
  }

  lemma LoadSourcesAfter(s: Save)
    requires s.Done() && LoadSources(s.before).Ok?
    ensures LoadSources(s.after).Ok? <==> !IsRead(s) || NoEmptyId(s.switches)
  {
    SourcesExact(s.before);
    SourcesExact(s.after);
    SavedNameIsScanned(s.filename);
    SavedFileLoads(s, true);
    SavedFileLoads(s, false);
    FolderFailsAfter(s);
  }

  /** A switch in a file other than the written one. */
  ghost predicate OtherSays(s: Save, sw: SwitchConfig) {
    exists c :: OtherSource(s, c) && sw in c.switches
  }

  /** No switch of the overlay contradicts another entry for its id, in the overlay itself
      or in another file, about hostname, address or model. */
  ghost predicate Fits(s: Save) {
    && (forall a, b :: a in s.accepted && b in s.accepted && a.id == b.id ==> Compatible(a, b))
    && (forall a, b :: a in s.accepted && OtherSays(s, b) && a.id == b.id ==> Compatible(a, b))
  }

  /** A switch of the overlay, as re-read. */
  ghost predicate OwnSays(s: Save, sw: SwitchConfig) {
    exists a :: a in s.accepted && sw == Reread(a)
  }

  lemma OwnIsSaved(s: Save, sw: SwitchConfig)
    ensures OwnSays(s, sw) <==> sw in SavedSource(s).switches
  {
    var own := SavedSource(s).switches;
    if OwnSays(s, sw) {
      var a :| a in s.accepted && sw == Reread(a);
      var i :| 0 <= i < |s.accepted| && s.accepted[i] == a;
      assert own[i] == sw;
    }
    if sw in own {
      var i :| 0 <= i < |own| && own[i] == sw;
      assert s.accepted[i] in s.accepted && sw == Reread(s.accepted[i]);
    }
  }

  lemma SaysAfter(s: Save, sw: SwitchConfig)
    requires s.Done() && LoadSources(s.after).Ok?
    ensures Says(LoadSources(s.after).value, sw) <==> OtherSays(s, sw) || (IsRead(s) && OwnSays(s, sw))
  {
    SourcesAfter(s);
    OwnIsSaved(s, sw);
  }

  lemma OtherSaysBefore(s: Save, sw: SwitchConfig)
    requires s.Done() && LoadSources(s.before).Ok? && OtherSays(s, sw)
    ensures Says(LoadSources(s.before).value, sw)
  {
    SourcesExact(s.before);
    var c :| OtherSource(s, c) && sw in c.switches;
  }

  lemma RereadCompatible(a: SwitchConfig, y: SwitchConfig)
    ensures Reread(a).id == a.id
    ensures Compatible(Reread(a), y) == Compatible(y, Reread(a)) == Compatible(a, y) == Compatible(y, a)
  {
  }

  lemma FitsIfNoConflict(s: Save)
    requires s.Done() && LoadSources(s.after).Ok? && IsRead(s) && AllCompatible(LoadSources(s.after).value)
    ensures Fits(s)
  {
    forall a, b | a in s.accepted && (b in s.accepted || OtherSays(s, b)) && a.id == b.id ensures Compatible(a, b) {
      SaysAfter(s, Reread(a));
      RereadCompatible(a, b);
      if OtherSays(s, b) {
        SaysAfter(s, b);
      } else {
        SaysAfter(s, Reread(b));
        RereadCompatible(b, Reread(a));
      }
    }
  }

  lemma OwnFits(s: Save, x: SwitchConfig, y: SwitchConfig)
    requires Fits(s) && x.id == y.id && OwnSays(s, x) && (OtherSays(s, y) || OwnSays(s, y))
    ensures Compatible(x, y) && Compatible(y, x)
  {
    var a :| a in s.accepted && x == Reread(a);
    RereadCompatible(a, y);
    if OwnSays(s, y) {
      var b :| b in s.accepted && y == Reread(b);
      RereadCompatible(b, a);
    }
  }

  lemma NoConflictIfFits(s: Save)
    requires s.Done() && LoadSources(s.after).Ok? && LoadSources(s.before).Ok? &&
      AllCompatible(LoadSources(s.before).value)
    requires !IsRead(s) || Fits(s)
    ensures AllCompatible(LoadSources(s.after).value)
  {
    var after := LoadSources(s.after).value;
    forall x, y | Says(after, x) && Says(after, y) && x.id == y.id ensures Compatible(x, y) {
      SaysAfter(s, x);
      SaysAfter(s, y);
      if OtherSays(s, x) && OtherSays(s, y) {
        OtherSaysBefore(s, x);
        OtherSaysBefore(s, y);
      } else if OtherSays(s, x) {
        OwnFits(s, y, x);
      } else {
        OwnFits(s, x, y);
      }
    }
  }

  /** If everything loaded before an overlay was saved, everything loads afterwards exactly
      when the saved file is not read, or no switch in it has an empty id and none
      contradicts another entry for its id. */
  lemma SaveMayBreakLoading(s: Save)
    requires s.Done() && Loads(s.before)
    ensures Loads(s.after) <==> !IsRead(s) || (NoEmptyId(s.switches) && Fits(s))
  {
    FilesAfter(s, 0);
    LoadSourcesAfter(s);
    NoConflictPairwise(LoadSources(s.before).value);
    if LoadSources(s.after).Ok? {
      NoConflictPairwise(LoadSources(s.after).value);
      if IsRead(s) && Loads(s.after) { FitsIfNoConflict(s); }
      if !IsRead(s) || Fits(s) { NoConflictIfFits(s); }
    }
  }
}
