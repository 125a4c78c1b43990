/** Configuration files on disk (switch-configurator/src/config.rs): scanning a folder,
    loading one or several sources, and what other sources say about a switch. */
module ConfigFiles {
  import opened Basics
  import opened Models
  import opened VlanNames
  import opened RowMerge
  import opened Merge
  import opened Validation
  import opened MergeConfigs

  // ---- files ----

  /** A switch in a YAML file: its ports still as written, the rest as parsed. */
  datatype YamlSwitch = YamlSwitch(rest: SwitchConfig, ports: seq<YamlPort>)

  datatype YamlFile = YamlFile(mergePriority: Option<u16>, switches: seq<YamlSwitch>)

  /** No content: the file cannot be read or parsed. */
  datatype File = File(name: string, content: Option<YamlFile>)

  /** Files in the order of their names; a folder may be missing or not a directory. */
  datatype Folder = Folder(path: string, isDirectory: bool, files: seq<File>)

  datatype Disk = Disk(mainFile: string, main: Option<YamlFile>, folders: seq<Folder>)

  function Join(folder: string, name: string): string { folder + "/" + name }

  function ParseSwitch(y: YamlSwitch): SwitchConfig {
    y.rest.(ports := seq(|y.ports|, i requires 0 <= i < |y.ports| => Split(y.ports[i])))
  }

  function Parse(y: YamlFile): ParsedFile {
    ParsedFile(y.mergePriority, seq(|y.switches|, i requires 0 <= i < |y.switches| => ParseSwitch(y.switches[i])))
  }

  function LastDot(s: string): Option<nat> {
    if s == [] then None else if s[|s| - 1] == '.' then Some(|s| - 1) else LastDot(s[..|s| - 1])
  }

  /** `Path::extension`: a leading dot starts no extension. */
  function Extension(name: string): Option<string> {
    match LastDot(name)
    case Some(k) => LastDotIs(name); if k == 0 || name == ".." then None else Some(name[k + 1..])
    case None => None
  }

  lemma {:induction false} LastDotIs(s: string)
    ensures match LastDot(s)
      case Some(k) => k < |s| && s[k] == '.' && '.' !in s[k + 1..]
      case None => '.' !in s
  {
    if s != [] && s[|s| - 1] != '.' {
      LastDotIs(s[..|s| - 1]);
      assert s == s[..|s| - 1] + [s[|s| - 1]];
    }
  }

  /** The files a folder scan looks at. */
  predicate Scanned(name: string) { Extension(name) in {Some("yaml"), Some("yml")} }

  function LoadFile(content: Option<YamlFile>, path: string, fromFolder: bool): Result<Loaded> {
    match content
    case Some(y) => Load(Parse(y), path, fromFolder)
    case None => Err
  }

  /** The files of a folder, in order: all of them, or nothing. */
  function LoadFiles(path: string, files: seq<File>): Result<seq<Loaded>> {
    if files == [] then Ok([])
    else
      match LoadFiles(path, files[..|files| - 1])
      case Err => Err
      case Ok(front) =>
        var last := files[|files| - 1];
        if !Scanned(last.name) then Ok(front)
        else match LoadFile(last.content, Join(path, last.name), true)
          case Err => Err
          case Ok(c) => Ok(front + [c])
  }

  function ScanFolder(f: Folder): Result<seq<Loaded>> {
    if !f.isDirectory then Err else LoadFiles(f.path, f.files)
  }

  function LoadFolders(folders: seq<Folder>): Result<seq<Loaded>> {
    if folders == [] then Ok([])
    else
      match (LoadFolders(folders[..|folders| - 1]), ScanFolder(folders[|folders| - 1]))
      case (Ok(front), Ok(last)) => Ok(front + last)
      case _ => Err
  }

  /** All sources, the main file first. */
  function LoadSources(d: Disk): Result<seq<Loaded>> {
    match (LoadFile(d.main, d.mainFile, false), LoadFolders(d.folders))
    case (Ok(main), Ok(rest)) => Ok([main] + rest)
    case _ => Err
  }

  /** `c` is what a scanned file of the folder loads as. */
  predicate LoadedFrom(path: string, files: seq<File>, c: Loaded) {
    exists f <- files :: Scanned(f.name) && LoadFile(f.content, Join(path, f.name), true) == Ok(c)
  }

  predicate FileFails(path: string, f: File) {
    Scanned(f.name) && LoadFile(f.content, Join(path, f.name), true).Err?
  }

  /** A scan has all files or fails on the first that does not load. */
  lemma {:induction false} LoadFilesExact(path: string, files: seq<File>)
    ensures LoadFiles(path, files).Ok? <==> forall f :: f in files ==> !FileFails(path, f)
    ensures LoadFiles(path, files).Ok? ==> forall c :: c in LoadFiles(path, files).value <==> LoadedFrom(path, files, c)
  {
    if files != [] {
      var front, last := files[..|files| - 1], files[|files| - 1];
      LoadFilesExact(path, front);
      assert files == front + [last];
      assert last in files && forall f :: f in front ==> f in files;
    }
  }

  /** What one file of a folder contributes. */
  function LoadOne(path: string, f: File): Result<seq<Loaded>> {
    if !Scanned(f.name) then Ok([])
    else match LoadFile(f.content, Join(path, f.name), true)
      case Err => Err
      case Ok(c) => Ok([c])
  }

  /** Files load in the order of their names. */
  lemma {:induction false} LoadFilesInOrder(path: string, a: seq<File>, b: seq<File>)
    ensures LoadFiles(path, a + b) == Joined(LoadFiles(path, a), LoadFiles(path, b))
  {
    if b == [] {
      assert a + b == a;
      if LoadFiles(path, a).Ok? { assert LoadFiles(path, a).value + [] == LoadFiles(path, a).value; }
    } else {
      var front, last := b[..|b| - 1], b[|b| - 1];
      assert (a + b)[..|a + b| - 1] == a + front;
      LoadFilesInOrder(path, a, front);
      LoadOneMore(path, a + b);
      LoadOneMore(path, b);
      JoinedAssociates(LoadFiles(path, a), LoadFiles(path, front), LoadOne(path, last));
    }
  }

  lemma LoadOneMore(path: string, files: seq<File>)
    requires files != []
    ensures LoadFiles(path, files) == Joined(LoadFiles(path, files[..|files| - 1]), LoadOne(path, files[|files| - 1]))
  {
    var front := LoadFiles(path, files[..|files| - 1]);
    if front.Ok? { assert front.value + [] == front.value; }
  }

  /** Folders load in the order in which they are given. */
  lemma {:induction false} LoadFoldersInOrder(a: seq<Folder>, b: seq<Folder>)
    ensures LoadFolders(a + b) == Joined(LoadFolders(a), LoadFolders(b))
  {
    if b == [] {
      assert a + b == a;
      if LoadFolders(a).Ok? { assert LoadFolders(a).value + [] == LoadFolders(a).value; }
    } else {
      assert (a + b)[..|a + b| - 1] == a + b[..|b| - 1];
      LoadFoldersInOrder(a, b[..|b| - 1]);
      JoinedAssociates(LoadFolders(a), LoadFolders(b[..|b| - 1]), ScanFolder(b[|b| - 1]));
    }
  }

  lemma {:induction false} LoadFoldersExact(folders: seq<Folder>)
    ensures LoadFolders(folders).Ok? <==> forall f :: f in folders ==> ScanFolder(f).Ok?
    ensures LoadFolders(folders).Ok? ==>
      forall c :: c in LoadFolders(folders).value <==> exists f :: f in folders && c in ScanFolder(f).value
  {
    if folders != [] {
      var front, last := folders[..|folders| - 1], folders[|folders| - 1];
      LoadFoldersExact(front);
      assert folders == front + [last];
    }
  }

  lemma LoadFileIsSound(content: Option<YamlFile>, path: string, fromFolder: bool)
    requires LoadFile(content, path, fromFolder).Ok?
    ensures forall sw :: sw in LoadFile(content, path, fromFolder).value.switches ==> Sound(sw)
    ensures LoadFile(content, path, fromFolder).value.file == path
  {
    LoadedIsSound(Parse(content.value), path, fromFolder);
  }

  lemma ScanIsSound(f: Folder)
    requires ScanFolder(f).Ok?
    ensures AllSound(ScanFolder(f).value)
  {
    LoadFilesExact(f.path, f.files);
    forall c | c in ScanFolder(f).value ensures forall sw :: sw in c.switches ==> Sound(sw) {
      var x :| x in f.files && Scanned(x.name) && LoadFile(x.content, Join(f.path, x.name), true) == Ok(c);
      LoadFileIsSound(x.content, Join(f.path, x.name), true);
    }
  }

  lemma SourcesAreSound(d: Disk)
    requires LoadSources(d).Ok?
    ensures AllSound(LoadSources(d).value)
  {
    LoadFileIsSound(d.main, d.mainFile, false);
    LoadFoldersExact(d.folders);
    forall c | c in LoadSources(d).value ensures forall sw :: sw in c.switches ==> Sound(sw) {
      if c in LoadFolders(d.folders).value {
        var f :| f in d.folders && c in ScanFolder(f).value;
        ScanIsSound(f);
      }
    }
  }

  // ---- the scanning loops ----

  method ParseSwitchYaml(y: YamlSwitch) returns (sw: SwitchConfig)
    ensures sw == ParseSwitch(y)
  {
    var ports: seq<Port> := [];
    for j := 0 to |y.ports|
      invariant ports == ParseSwitch(y).ports[..j]
    {
      var p := Deserialize(y.ports[j]);
      ports := ports + [p];
    }
    sw := y.rest.(ports := ports);
  }

  method ParseAndLoad(content: Option<YamlFile>, path: string, fromFolder: bool) returns (r: Result<Loaded>)
    ensures r == LoadFile(content, path, fromFolder)
  {
    if content.None? { return Err; }
    var switches: seq<SwitchConfig> := [];
    for i := 0 to |content.value.switches|
      invariant switches == Parse(content.value).switches[..i]
    {
      var sw := ParseSwitchYaml(content.value.switches[i]);
      switches := switches + [sw];
    }
    assert switches == Parse(content.value).switches;
    r := LoadWithMetadata(ParsedFile(content.value.mergePriority, switches), path, fromFolder);
  }

  /** `scan_config_folder`. */
  method ScanConfigFolder(f: Folder) returns (r: Result<seq<Loaded>>)
    ensures r == ScanFolder(f)
  {
    if !f.isDirectory { return Err; }
    LoadFilesExact(f.path, f.files);
    var configs: seq<Loaded> := [];
    for i := 0 to |f.files|
      invariant LoadFiles(f.path, f.files[..i]) == Ok(configs)
    {
      assert f.files[..i + 1][..i] == f.files[..i];
      if Scanned(f.files[i].name) {
        var c := ParseAndLoad(f.files[i].content, Join(f.path, f.files[i].name), true);
        if c.Err? { assert FileFails(f.path, f.files[i]); return Err; }
        configs := configs + [c.value];
      }
    }
    assert f.files[..|f.files|] == f.files;
    r := Ok(configs);
  }

  // ---- several sources ----

  const FILE_PRIORITY := (c: Loaded) => c.priority

  function InsertLoaded(t: seq<Loaded>, c: Loaded): seq<Loaded> { InsertBy(t, c, FILE_PRIORITY) }

  /** `configs.sort_by_key(|c| c.merge_priority)` on whole files. */
  function SortLoaded(cs: seq<Loaded>): seq<Loaded> { SortBy(cs, FILE_PRIORITY) }

  lemma {:induction false} OfPriorityOfConcat(a: seq<Source>, b: seq<Source>, p: u16)
    ensures OfPriority(a + b, p) == OfPriority(a, p) + OfPriority(b, p)
  {
    if b == [] {
      assert a + b == a;
    } else {
      assert (a + b)[..|a + b| - 1] == a + b[..|b| - 1];
      OfPriorityOfConcat(a, b[..|b| - 1], p);
    }
  }

  lemma {:induction false} OfPriorityOfOneFile(switches: seq<SwitchConfig>, c: Loaded, id: string, p: u16)
    ensures OfPriority(SourcesIn(switches, c, id), p) == if c.priority == p then SourcesIn(switches, c, id) else []
  {
    if switches != [] {
      var front := SourcesIn(switches[..|switches| - 1], c, id);
      OfPriorityOfOneFile(switches[..|switches| - 1], c, id, p);
      OfPriorityOfConcat(front, [Source(switches[|switches| - 1], c.priority, c.file)], p);
    }
  }

  /** Two files of different priorities may change places. */
  lemma SwapLastTwo(r: seq<Source>, front: seq<Source>, own: seq<Source>, added: seq<Source>, p: u16)
    requires OfPriority(r, p) == OfPriority(front + added, p) &&
      (OfPriority(own, p) == [] || OfPriority(added, p) == [])
    ensures OfPriority(r + own, p) == OfPriority(front + own + added, p)
  {
    OfPriorityOfConcat(r, own, p);
    OfPriorityOfConcat(front, added, p);
    OfPriorityOfConcat(front, own, p);
    OfPriorityOfConcat(front + own, added, p);
    OneIsEmpty(OfPriority(front, p), OfPriority(own, p), OfPriority(added, p));
  }

  lemma OneIsEmpty<T>(a: seq<T>, b: seq<T>, c: seq<T>)
    requires b == [] || c == []
    ensures (a + c) + b == (a + b) + c
  {
    if b == [] {
      assert a + b == a && (a + c) + b == a + c;
    } else {
      assert a + c == a && (a + b) + c == a + b;
    }
  }

  lemma {:induction false} GroupAfterInsert(t: seq<Loaded>, c: Loaded, id: string, p: u16)
    ensures OfPriority(Group(InsertLoaded(t, c), id), p) == OfPriority(Group(t, id) + SourcesIn(c.switches, c, id), p)
  {
    if t == [] || t[|t| - 1].priority <= c.priority {
      assert (t + [c])[..|t|] == t;
    } else {
      var front, last := t[..|t| - 1], t[|t| - 1];
      var r := InsertLoaded(front, c);
      assert (r + [last])[..|r|] == r;
      GroupAfterInsert(front, c, id, p);
      var own, new_ := SourcesIn(last.switches, last, id), SourcesIn(c.switches, c, id);
      assert Group(InsertLoaded(t, c), id) == Group(r, id) + own && Group(t, id) == Group(front, id) + own;
      OfPriorityOfOneFile(last.switches, last, id, p);
      OfPriorityOfOneFile(c.switches, c, id, p);
      SwapLastTwo(Group(r, id), Group(front, id), own, new_, p);
    }
  }

  lemma {:induction false} SortKeepsPriorities(cs: seq<Loaded>, id: string, p: u16)
    ensures OfPriority(Group(SortLoaded(cs), id), p) == OfPriority(Group(cs, id), p)
  {
    if cs != [] {
      var front, last := cs[..|cs| - 1], cs[|cs| - 1];
      SortKeepsPriorities(front, id, p);
      GroupAfterInsert(SortLoaded(front), last, id, p);
      var own := SourcesIn(last.switches, last, id);
      OfPriorityOfConcat(Group(SortLoaded(front), id), own, p);
      OfPriorityOfConcat(Group(front, id), own, p);
    }
  }

  lemma {:induction false} OfPriorityHas(s: seq<Source>, x: Source)
    ensures x in OfPriority(s, x.priority) <==> x in s
  {
    if s != [] {
      OfPriorityHas(s[..|s| - 1], x);
      assert s == s[..|s| - 1] + [s[|s| - 1]];
    }
  }

  ghost predicate SamePriorities(a: seq<Source>, b: seq<Source>) {
    forall p: u16 :: OfPriority(a, p) == OfPriority(b, p)
  }

  lemma SamePrioritiesSameMembers(a: seq<Source>, b: seq<Source>)
    requires SamePriorities(a, b)
    ensures forall x :: x in a <==> x in b
  {
    forall x ensures x in a <==> x in b {
      OfPriorityHas(a, x);
      OfPriorityHas(b, x);
      assert OfPriority(a, x.priority) == OfPriority(b, x.priority);
    }
  }

  lemma SnocEqual<T>(a: seq<T>, x: T, b: seq<T>, y: T)
    requires a + [x] == b + [y]
    ensures a == b && x == y
  {
    assert |a + [x]| == |b + [y]|;
    assert a == (a + [x])[..|a|] && b == (b + [y])[..|b|];
    assert (a + [x])[|a|] == x && (b + [y])[|b|] == y;
  }

  lemma OfPriorityOfSnoc(a: seq<Source>, x: Source, p: u16)
    ensures OfPriority(a + [x], p) == if x.priority == p then OfPriority(a, p) + [x] else OfPriority(a, p)
  {
    assert (a + [x])[..|a|] == a;
  }

  lemma SameTail(a: seq<Source>, x: Source, b: seq<Source>, y: Source)
    requires SamePriorities(a + [x], b + [y]) && x.priority == y.priority
    ensures x == y && SamePriorities(a, b)
  {
    forall p: u16 ensures OfPriority(a, p) == OfPriority(b, p) {
      SameTailAt(a, x, b, y, p);
    }
    SameTailAt(a, x, b, y, x.priority);
  }

  lemma SameTailAt(a: seq<Source>, x: Source, b: seq<Source>, y: Source, p: u16)
    requires OfPriority(a + [x], p) == OfPriority(b + [y], p) && x.priority == y.priority
    ensures OfPriority(a, p) == OfPriority(b, p) && (p == x.priority ==> x == y)
  {
    OfPriorityOfSnoc(a, x, p);
    OfPriorityOfSnoc(b, y, p);
    if p == x.priority { SnocEqual(OfPriority(a, p), x, OfPriority(b, p), y); }
  }

  lemma SameTop(a: seq<Source>, b: seq<Source>)
    requires SortedByPriority(a) && SortedByPriority(b) && SamePriorities(a, b) && a != []
    ensures b != [] && a[|a| - 1].priority == b[|b| - 1].priority
  {
    SamePrioritiesSameMembers(a, b);
    assert a[|a| - 1] in b;
    assert b[|b| - 1] in a;
  }

  /** A list sorted by priority is determined by its sources of each priority. */
  lemma {:induction false} SortedIsUnique(a: seq<Source>, b: seq<Source>)
    requires SortedByPriority(a) && SortedByPriority(b) && SamePriorities(a, b)
    ensures a == b
  {
    if a != [] {
      SameTop(a, b);
      var a', b', x, y := a[..|a| - 1], b[..|b| - 1], a[|a| - 1], b[|b| - 1];
      assert a == a' + [x] && b == b' + [y];
      SameTail(a', x, b', y);
      SortedIsUnique(a', b');
    } else if b != [] {
      SameTop(b, a);
    }
  }

  /** Sorting the files before grouping changes no switch's sources once they are sorted. */
  lemma PresortChangesNothing(env: Secrets, cs: seq<Loaded>, id: string)
    ensures StableSort(Group(SortLoaded(cs), id)) == StableSort(Group(cs, id))
    ensures Fate(env, SortLoaded(cs), id) == Fate(env, cs, id)
    ensures Mentioned(SortLoaded(cs), id) <==> Mentioned(cs, id)
    ensures IdentityAgrees(Group(SortLoaded(cs), id)) <==> IdentityAgrees(Group(cs, id))
  {
    var a, b := Group(SortLoaded(cs), id), Group(cs, id);
    StableSortSorts(a);
    StableSortSorts(b);
    forall p: u16 ensures OfPriority(StableSort(a), p) == OfPriority(StableSort(b), p) {
      StableSortIsStable(a, p);
      StableSortIsStable(b, p);
      SortKeepsPriorities(cs, id, p);
    }
    SortedIsUnique(StableSort(a), StableSort(b));
    forall x ensures x in a <==> x in b {
      assert x in a <==> x in StableSort(a);
      assert x in b <==> x in StableSort(b);
    }
    if a != [] { assert a[0] in b; }
    if b != [] { assert b[0] in a; }
    AgreeByMembers(a, b, HOSTNAME);
    AgreeByMembers(a, b, MANAGEMENT_IP);
    AgreeByMembers(a, b, MODEL);
  }

  lemma AgreeByMembers<T(!new)>(a: seq<Source>, b: seq<Source>, f: SwitchConfig -> Option<T>)
    requires forall x :: x in a <==> x in b
    ensures Agree(a, f) <==> Agree(b, f)
  {
    AgreeOnMembers(a, f);
    AgreeOnMembers(b, f);
  }

  lemma AgreeOnMembers<T(!new)>(a: seq<Source>, f: SwitchConfig -> Option<T>)
    ensures Agree(a, f) <==> forall x, y :: x in a && y in a && f(x.sw).Some? && f(y.sw).Some? ==> f(x.sw) == f(y.sw)
  {
    if Agree(a, f) {
      forall x, y | x in a && y in a && f(x.sw).Some? && f(y.sw).Some? ensures f(x.sw) == f(y.sw) {
        var i :| 0 <= i < |a| && a[i] == x;
        var j :| 0 <= j < |a| && a[j] == y;
      }
    }
  }

  /** No identity field that both have differs. */
  predicate Compatible(a: SwitchConfig, b: SwitchConfig) {
    && (a.hostname.Some? && b.hostname.Some? ==> a.hostname == b.hostname)
    && (a.managementIp.Some? && b.managementIp.Some? ==> a.managementIp == b.managementIp)
    && (a.model.Some? && b.model.Some? ==> a.model == b.model)
  }

  ghost predicate Says(cs: seq<Loaded>, sw: SwitchConfig) {
    exists c :: c in cs && sw in c.switches
  }

  lemma GroupSays(cs: seq<Loaded>, id: string)
    ensures forall x :: x in Group(cs, id) ==> Says(cs, x.sw) && x.sw.id == id
    ensures forall sw :: Says(cs, sw) && sw.id == id ==> exists x :: x in Group(cs, id) && x.sw == sw
  {
    forall x | x in Group(cs, id) ensures Says(cs, x.sw) && x.sw.id == id { GroupIs(cs, id, x); }
    forall sw | Says(cs, sw) && sw.id == id ensures exists x :: x in Group(cs, id) && x.sw == sw {
      var c :| c in cs && sw in c.switches;
      GroupIs(cs, id, Source(sw, c.priority, c.file));
    }
  }

  /** Any two entries for one id are compatible. */
  ghost predicate AllCompatible(cs: seq<Loaded>) {
    forall a, b :: Says(cs, a) && Says(cs, b) && a.id == b.id ==> Compatible(a, b)
  }

  lemma MembersAgree(s: seq<Source>)
    ensures IdentityAgrees(s) <==> forall x, y :: x in s && y in s ==> Compatible(x.sw, y.sw)
  {
    AgreeOnMembers(s, HOSTNAME);
    AgreeOnMembers(s, MANAGEMENT_IP);
    AgreeOnMembers(s, MODEL);
  }

  /** The identity check passes exactly when any two entries for one id are compatible. */
  lemma NoConflictPairwise(cs: seq<Loaded>)
    ensures NoConflict(cs) <==> AllCompatible(cs)
  {
    forall id { GroupSays(cs, id); }
    forall id { MembersAgree(Group(cs, id)); }
    if NoConflict(cs) {
      forall a, b | Says(cs, a) && Says(cs, b) && a.id == b.id ensures Compatible(a, b) {
        var x :| x in Group(cs, a.id) && x.sw == a;
        var y :| y in Group(cs, a.id) && y.sw == b;
        assert Mentioned(cs, a.id);
      }
    }
  }

  method LoadAllSources(d: Disk) returns (r: Result<seq<Loaded>>)
    ensures r == LoadSources(d)
  {
    var main := ParseAndLoad(d.main, d.mainFile, false);
    if main.Err? { return Err; }
    var configs := [main.value];
    for i := 0 to |d.folders|
      invariant LoadFolders(d.folders[..i]).Ok? && configs == [main.value] + LoadFolders(d.folders[..i]).value
    {
      assert d.folders[..i + 1][..i] == d.folders[..i];
      var more := ScanConfigFolder(d.folders[i]);
      if more.Err? {
        LoadFoldersExact(d.folders);
        assert d.folders[i] in d.folders;
        return Err;
      }
      configs := configs + more.value;
    }
    assert d.folders[..|d.folders|] == d.folders;
    r := Ok(configs);
  }

  /** `AppConfig::load_multi`. What it yields is said in terms of the sources as they are
      met on disk, though the code sorts them twice. */
  method LoadMulti(env: Secrets, d: Disk) returns (r: Result<(seq<SwitchConfig>, seq<Failure>)>)
    ensures r.Err? <==> LoadSources(d).Err? || !NoConflict(LoadSources(d).value)
    ensures r.Ok? ==> SortedOut(env, LoadSources(d).value, IdsOf(LoadSources(d).value), r.value.0, r.value.1)
  {
    var configs := LoadAllSources(d);
    if configs.Err? { return Err; }
    var sorted := SortLoaded(configs.value);
    SortKeepsLength(configs.value);
    SortingIsHarmless(env, configs.value);
    r := MergeAll(env, sorted);
    if r.Ok? { SortedOutAfterSort(env, configs.value, r.value.0, r.value.1); }
  }

  lemma SortingIsHarmless(env: Secrets, cs: seq<Loaded>)
    ensures NoConflict(SortLoaded(cs)) <==> NoConflict(cs)
    ensures IdsOf(SortLoaded(cs)) == IdsOf(cs)
  {
    forall id ensures Mentioned(SortLoaded(cs), id) <==> Mentioned(cs, id) { PresortChangesNothing(env, cs, id); }
    if NoConflict(SortLoaded(cs)) {
      forall id | Mentioned(cs, id) ensures IdentityAgrees(Group(cs, id)) { PresortChangesNothing(env, cs, id); }
    }
    if NoConflict(cs) {
      forall id | Mentioned(SortLoaded(cs), id) ensures IdentityAgrees(Group(SortLoaded(cs), id)) {
        PresortChangesNothing(env, cs, id);
      }
    }
    IdsMentioned(cs);
    IdsMentioned(SortLoaded(cs));
  }

  lemma SortedOutAfterSort(env: Secrets, cs: seq<Loaded>, valid: seq<SwitchConfig>, failures: seq<Failure>)
    requires SortedOut(env, SortLoaded(cs), IdsOf(SortLoaded(cs)), valid, failures)
    ensures SortedOut(env, cs, IdsOf(cs), valid, failures)
  {
    SortingIsHarmless(env, cs);
    forall i | 0 <= i < |valid| ensures Fate(env, cs, valid[i].id) == Ok(valid[i]) {
      PresortChangesNothing(env, cs, valid[i].id);
    }
    forall i | 0 <= i < |failures|
      ensures Fate(env, cs, failures[i].switchId).Err? && SourcesReported(cs, failures[i])
    {
      PresortChangesNothing(env, cs, failures[i].switchId);
    }
  }

  lemma {:induction false} SortKeepsLength(cs: seq<Loaded>)
    ensures |SortLoaded(cs)| == |cs|
  {
    if cs != [] {
      SortKeepsLength(cs[..|cs| - 1]);
      InsertKeepsLength(SortLoaded(cs[..|cs| - 1]), cs[|cs| - 1]);
    }
  }

  lemma {:induction false} InsertKeepsLength(t: seq<Loaded>, c: Loaded)
    ensures |InsertLoaded(t, c)| == |t| + 1
  {
    if t != [] && t[|t| - 1].priority > c.priority { InsertKeepsLength(t[..|t| - 1], c); }
  }

  // ---- one source: every switch by itself ----

  function ValidOnes(env: Secrets, switches: seq<SwitchConfig>): seq<SwitchConfig> {
    if switches == [] then []
    else
      var front := ValidOnes(env, switches[..|switches| - 1]);
      match Validate(env, switches[|switches| - 1])
      case Ok(sw) => front + [sw]
      case Err => front
  }

  function FailedOnes(env: Secrets, switches: seq<SwitchConfig>): seq<string> {
    if switches == [] then []
    else
      var front, last := FailedOnes(env, switches[..|switches| - 1]), switches[|switches| - 1];
      if Validate(env, last).Err? then front + [last.id] else front
  }

  /** `validate_all_switches`. */
  method ValidateAllSwitches(env: Secrets, switches: seq<SwitchConfig>)
    returns (valid: seq<SwitchConfig>, failures: seq<string>)
    ensures valid == ValidOnes(env, switches) && failures == FailedOnes(env, switches)
  {
    valid, failures := [], [];
    for i := 0 to |switches|
      invariant valid == ValidOnes(env, switches[..i]) && failures == FailedOnes(env, switches[..i])
    {
      assert switches[..i + 1][..i] == switches[..i];
      var sw := ValidateSwitchConfig(env, switches[i]);
      if sw.Ok? { valid := valid + [sw.value]; } else { failures := failures + [switches[i].id]; }
    }
    assert switches[..|switches|] == switches;
  }

  /** `AppConfig::load`. */
  method LoadSingle(env: Secrets, d: Disk) returns (r: Result<(seq<SwitchConfig>, seq<string>)>)
    ensures r == if d.main.None? then Err
                 else
                   var switches := Parse(d.main.value).switches;
                   Ok((ValidOnes(env, switches), FailedOnes(env, switches)))
  {
    if d.main.None? { return Err; }
    var valid, failures := ValidateAllSwitches(env, Parse(d.main.value).switches);
    r := Ok((valid, failures));
  }

  /** No switch gets lost: every one of the file is valid or failed. */
  lemma {:induction false} SingleFileSortsOut(env: Secrets, switches: seq<SwitchConfig>)
    ensures |ValidOnes(env, switches)| + |FailedOnes(env, switches)| == |switches|
    ensures forall sw :: sw in ValidOnes(env, switches) ==> Settled(env, sw)
    ensures forall sw :: sw in ValidOnes(env, switches) <==>
      exists from :: from in switches && Validate(env, from) == Ok(sw)
    ensures forall id :: id in FailedOnes(env, switches) <==>
      exists from :: from in switches && from.id == id && Validate(env, from).Err?
  {
    if switches != [] {
      var front, last := switches[..|switches| - 1], switches[|switches| - 1];
      SingleFileSortsOut(env, front);
      AcceptedIsSettled(env, last);
      MembersOfSnoc(switches);
    }
  }

  /** Valid and failed switches of a single file come in its order. */
  lemma {:induction false} SingleFileInOrder(env: Secrets, a: seq<SwitchConfig>, b: seq<SwitchConfig>)
    ensures ValidOnes(env, a + b) == ValidOnes(env, a) + ValidOnes(env, b)
    ensures FailedOnes(env, a + b) == FailedOnes(env, a) + FailedOnes(env, b)
  {
    if b == [] {
      assert a + b == a;
    } else {
      assert (a + b)[..|a + b| - 1] == a + b[..|b| - 1];
      SingleFileInOrder(env, a, b[..|b| - 1]);
    }
  }

  lemma MembersOfSnoc(switches: seq<SwitchConfig>)
    requires switches != []
    ensures forall sw :: sw in switches <==> sw in switches[..|switches| - 1] || sw == switches[|switches| - 1]
  {
    assert switches == switches[..|switches| - 1] + [switches[|switches| - 1]];
  }

  lemma AcceptedIsSettled(env: Secrets, sw: SwitchConfig)
    ensures Validate(env, sw).Ok? ==> Settled(env, Validate(env, sw).value)
  {
    if Validate(env, sw).Ok? { ValidateSettles(env, sw); }
  }

  // ---- what other sources say ----

  /** The VLAN ids that loaded files declare for a switch. */
  ghost predicate Declares(c: Loaded, switchId: string, id: u16) {
    exists sw, v :: sw in c.switches && v in sw.vlans && sw.id == switchId && v.id == id
  }

  /** `known_external_vlan_ids`: the main file if it loads, and every folder of which all
      files load; never the excluded file. */
  ghost predicate KnownExternally(d: Disk, switchId: string, excluding: string, id: u16) {
    || (d.mainFile != excluding && LoadFile(d.main, d.mainFile, false).Ok? &&
      Declares(LoadFile(d.main, d.mainFile, false).value, switchId, id))
    || (exists f :: f in d.folders && ScanFolder(f).Ok? && DeclaredIn(ScanFolder(f).value, switchId, excluding, id))
  }

  ghost predicate DeclaredIn(cs: seq<Loaded>, switchId: string, excluding: string, id: u16) {
    exists c :: c in cs && c.file != excluding && Declares(c, switchId, id)
  }

  method CollectFrom(c: Loaded, switchId: string, ids: set<u16>) returns (ids': set<u16>)
    ensures forall id :: id in ids' <==> id in ids || Declares(c, switchId, id)
  {
    ids' := ids + set sw, v | sw in c.switches && v in sw.vlans && sw.id == switchId :: v.id;
  }

  method KnownExternalVlanIds(d: Disk, switchId: string, excluding: string) returns (ids: set<u16>)
    ensures forall id :: id in ids <==> KnownExternally(d, switchId, excluding, id)
  {
    ids := {};
    if d.mainFile != excluding {
      var main := ParseAndLoad(d.main, d.mainFile, false);
      if main.Ok? { ids := CollectFrom(main.value, switchId, ids); }
    }
    ghost var fromMain := ids;
    for i := 0 to |d.folders|
      invariant forall id :: id in ids <==>
        id in fromMain || exists f ::
          f in d.folders[..i] && ScanFolder(f).Ok? && DeclaredIn(ScanFolder(f).value, switchId, excluding, id)
    {
      var cs := ScanConfigFolder(d.folders[i]);
      assert d.folders[..i + 1] == d.folders[..i] + [d.folders[i]];
      if cs.Ok? { ids := CollectFromAll(cs.value, switchId, excluding, ids); }
    }
    assert d.folders[..|d.folders|] == d.folders;
  }

  method CollectFromAll(cs: seq<Loaded>, switchId: string, excluding: string, ids: set<u16>) returns (ids': set<u16>)
    ensures forall id :: id in ids' <==> id in ids || DeclaredIn(cs, switchId, excluding, id)
  {
    ids' := ids;
    for j := 0 to |cs|
      invariant forall id :: id in ids' <==> id in ids || DeclaredIn(cs[..j], switchId, excluding, id)
    {
      assert cs[..j + 1] == cs[..j] + [cs[j]];
      if cs[j].file != excluding { ids' := CollectFrom(cs[j], switchId, ids'); }
    }
    assert cs[..|cs|] == cs;
  }
}
