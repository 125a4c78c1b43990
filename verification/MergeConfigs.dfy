/** Loading files and merging all their switches (switch-configurator/src/config.rs):
    `load_with_metadata`, `merge_configs`, and what comes out of them. */
module MergeConfigs {
  import opened Basics
  import opened Models
  import opened VlanNames
  import opened PortRange
  import opened RowMerge
  import opened Merge
  import opened Validation
  import opened Acceptance

  // ---- loading one file ----

  /** A file as parsed: its switches still unexpanded. */
  datatype ParsedFile = ParsedFile(mergePriority: Option<u16>, switches: seq<SwitchConfig>)

  datatype Loaded = Loaded(switches: seq<SwitchConfig>, priority: u16, file: string)

  predicate SwitchesLoad(switches: seq<SwitchConfig>) {
    forall i :: 0 <= i < |switches| ==> Expand(switches[i]).Ok? && WellFormed(Expand(switches[i]).value)
  }

  function LoadedSwitches(switches: seq<SwitchConfig>): (r: seq<SwitchConfig>)
    requires SwitchesLoad(switches)
    ensures |r| == |switches|
  {
    seq(|switches|, i requires 0 <= i < |switches| => Expand(switches[i]).value)
  }

  /** `load_with_metadata`; priorities below 11 are for the main file. */
  function Load(f: ParsedFile, file: string, fromFolder: bool): Result<Loaded> {
    var priority := if f.mergePriority.Some? then f.mergePriority.value else if fromFolder then 100 else 50;
    if !SwitchesLoad(f.switches) || (fromFolder && priority < 11) then Err
    else Ok(Loaded(LoadedSwitches(f.switches), priority, file))
  }

  method ExpandSwitches(switches: seq<SwitchConfig>) returns (r: Result<seq<SwitchConfig>>)
    ensures r.Err? <==> exists k :: 0 <= k < |switches| && Expand(switches[k]).Err?
    ensures r.Ok? ==> |r.value| == |switches| && forall k :: 0 <= k < |switches| ==>
      Expand(switches[k]) == Ok(r.value[k])
  {
    var expanded: seq<SwitchConfig> := [];
    for i := 0 to |switches|
      invariant |expanded| == i && forall k :: 0 <= k < i ==> Expand(switches[k]) == Ok(expanded[k])
    {
      var sw := ExpandPortRanges(switches[i]);
      if sw.Err? { return Err; }
      expanded := expanded + [sw.value];
    }
    return Ok(expanded);
  }

  method AllWellFormed(switches: seq<SwitchConfig>) returns (ok: bool)
    ensures ok <==> forall k :: 0 <= k < |switches| ==> WellFormed(switches[k])
  {
    for i := 0 to |switches|
      invariant forall k :: 0 <= k < i ==> WellFormed(switches[k])
    {
      if !WellFormed(switches[i]) { return false; }
    }
    return true;
  }

  method LoadWithMetadata(f: ParsedFile, file: string, fromFolder: bool) returns (r: Result<Loaded>)
    ensures r == Load(f, file, fromFolder)
  {
    var switches := ExpandSwitches(f.switches);
    if switches.Err? { return Err; }
    var ok := AllWellFormed(switches.value);
    assert ok <==> SwitchesLoad(f.switches);
    if !ok { return Err; }
    assert switches.value == LoadedSwitches(f.switches);
    var priority := if f.mergePriority.Some? then f.mergePriority.value else if fromFolder then 100 else 50;
    r := if fromFolder && priority < 11 then Err else Ok(Loaded(switches.value, priority, file));
  }

  /** What a file loads as: under its own priority, or 50 for the main file and 100 in a folder,
      where less than 11 is refused; each switch expanded, in order. */
  lemma LoadExactly(f: ParsedFile, file: string, fromFolder: bool)
    ensures Load(f, file, fromFolder).Ok? <==>
      && (forall sw <- f.switches :: Expand(sw).Ok? && StructureOk(Expand(sw).value))
      && !(fromFolder && f.mergePriority.Some? && f.mergePriority.value < 11)
    ensures Load(f, file, fromFolder).Ok? ==>
      var c := Load(f, file, fromFolder).value;
      && c.file == file
      && (f.mergePriority.Some? ==> c.priority == f.mergePriority.value)
      && (f.mergePriority.None? ==> c.priority == if fromFolder then 100 else 50)
      && |c.switches| == |f.switches|
      && forall i :: 0 <= i < |f.switches| ==> Expand(f.switches[i]) == Ok(c.switches[i])
  {
    forall sw: SwitchConfig ensures WellFormed(sw) <==> StructureOk(sw) {}
    if SwitchesLoad(f.switches) {
      forall sw | sw in f.switches ensures Expand(sw).Ok? && StructureOk(Expand(sw).value) {
        var i :| 0 <= i < |f.switches| && f.switches[i] == sw;
      }
    }
  }

  /** What merging may rely on about loaded switches. */
  predicate Sound(sw: SwitchConfig) { WellFormed(sw) && Expanded(sw) }

  predicate AllSound(configs: seq<Loaded>) {
    forall c :: c in configs ==> forall sw :: sw in c.switches ==> Sound(sw)
  }

  lemma LoadedIsSound(f: ParsedFile, file: string, fromFolder: bool)
    requires Load(f, file, fromFolder).Ok?
    ensures forall sw :: sw in Load(f, file, fromFolder).value.switches ==> Sound(sw)
  {
    forall i | 0 <= i < |f.switches| ensures Sound(LoadedSwitches(f.switches)[i]) {
      ExpandMakesExpanded(f.switches[i]);
    }
  }

  // ---- grouping by switch id ----

  function SourcesIn(switches: seq<SwitchConfig>, c: Loaded, id: string): seq<Source> {
    if switches == [] then []
    else
      var front, last := SourcesIn(switches[..|switches| - 1], c, id), switches[|switches| - 1];
      if last.id == id then front + [Source(last, c.priority, c.file)] else front
  }

  /** All that the files say about one switch, in the order of the files. */
  function Group(configs: seq<Loaded>, id: string): seq<Source> {
    if configs == [] then []
    else Group(configs[..|configs| - 1], id) + SourcesIn(configs[|configs| - 1].switches, configs[|configs| - 1], id)
  }

  /** The groups found so far: those of `configs`, followed by the first switches of `c`. */
  ghost predicate GroupsAre(groups: map<string, seq<Source>>, configs: seq<Loaded>, c: Loaded,
      switches: seq<SwitchConfig>)
  {
    && (forall id :: id in groups ==> groups[id] != [] && groups[id] == Group(configs, id) + SourcesIn(switches, c, id))
    && (forall id :: id !in groups ==> Group(configs, id) + SourcesIn(switches, c, id) == [])
  }

  method GroupBySwitch(configs: seq<Loaded>) returns (groups: map<string, seq<Source>>)
    ensures forall id :: Group(configs, id) == if id in groups then groups[id] else []
    ensures forall id :: id in groups ==> groups[id] != []
  {
    groups := map[];
    if configs == [] { return; }
    assert GroupsAre(groups, configs[..0], configs[0], []);
    for i := 0 to |configs|
      invariant GroupsAre(groups, configs[..i], configs[0], [])
    {
      assert configs[..i + 1][..i] == configs[..i];
      groups := GroupOneFile(groups, configs[..i], configs[0], configs[i]);
      assert forall id ::
        Group(configs[..i + 1], id) == Group(configs[..i], id) + SourcesIn(configs[i].switches, configs[i], id);
    }
    assert configs[..|configs|] == configs;
  }

  method GroupOneFile(before: map<string, seq<Source>>, ghost configs: seq<Loaded>, ghost any: Loaded, c: Loaded)
    returns (groups: map<string, seq<Source>>)
    requires GroupsAre(before, configs, any, [])
    ensures GroupsAre(groups, configs, c, c.switches)
  {
    groups := before;
    for j := 0 to |c.switches|
      invariant GroupsAre(groups, configs, c, c.switches[..j])
    {
      assert c.switches[..j + 1] == c.switches[..j] + [c.switches[j]];
      var sw := c.switches[j];
      GroupOneSwitch(groups, configs, c, c.switches[..j], sw);
      var soFar := if sw.id in groups then groups[sw.id] else [];
      groups := groups[sw.id := soFar + [Source(sw, c.priority, c.file)]];
    }
    assert c.switches[..|c.switches|] == c.switches;
  }

  lemma GroupOneSwitch(groups: map<string, seq<Source>>, configs: seq<Loaded>, c: Loaded, switches: seq<SwitchConfig>,
      sw: SwitchConfig)
    requires GroupsAre(groups, configs, c, switches)
    ensures var soFar := if sw.id in groups then groups[sw.id] else [];
      GroupsAre(groups[sw.id := soFar + [Source(sw, c.priority, c.file)]], configs, c, switches + [sw])
  {
    assert (switches + [sw])[..|switches|] == switches;
    assert SourcesIn(switches + [sw], c, sw.id) == SourcesIn(switches, c, sw.id) + [Source(sw, c.priority, c.file)];
    assert forall id :: id != sw.id ==> SourcesIn(switches + [sw], c, id) == SourcesIn(switches, c, id);
    var known := Group(configs, sw.id);
    assert known + (SourcesIn(switches, c, sw.id) + [Source(sw, c.priority, c.file)]) ==
      (known + SourcesIn(switches, c, sw.id)) + [Source(sw, c.priority, c.file)];
  }

  lemma {:induction false} SourcesInAre(switches: seq<SwitchConfig>, c: Loaded, id: string)
    ensures forall x :: x in SourcesIn(switches, c, id) ==>
      x.sw in switches && x.sw.id == id && x.priority == c.priority && x.file == c.file
    ensures forall sw :: sw in switches && sw.id == id ==> Source(sw, c.priority, c.file) in SourcesIn(switches, c, id)
  {
    if switches != [] {
      SourcesInAre(switches[..|switches| - 1], c, id);
      assert switches == switches[..|switches| - 1] + [switches[|switches| - 1]];
    }
  }

  lemma {:induction false} SourcesInOrder(a: seq<SwitchConfig>, b: seq<SwitchConfig>, c: Loaded, id: string)
    ensures SourcesIn(a + b, c, id) == SourcesIn(a, c, id) + SourcesIn(b, c, id)
  {
    if b == [] {
      assert a + b == a;
    } else {
      assert (a + b)[..|a + b| - 1] == a + b[..|b| - 1];
      SourcesInOrder(a, b[..|b| - 1], c, id);
    }
  }

  /** The sources of files that come first come first. */
  lemma {:induction false} GroupInOrder(a: seq<Loaded>, b: seq<Loaded>, id: string)
    ensures Group(a + b, id) == Group(a, id) + Group(b, id)
  {
    if b == [] {
      assert a + b == a;
    } else {
      assert (a + b)[..|a + b| - 1] == a + b[..|b| - 1];
      GroupInOrder(a, b[..|b| - 1], id);
    }
  }

  /** A group holds exactly the entries for that id, under their file's priority and name. */
  lemma {:induction false} GroupIs(configs: seq<Loaded>, id: string, x: Source)
    ensures x in Group(configs, id) <==>
      x.sw.id == id && exists c :: c in configs && x.sw in c.switches && x.priority == c.priority && x.file == c.file
  {
    if configs != [] {
      var front, last := configs[..|configs| - 1], configs[|configs| - 1];
      GroupIs(front, id, x);
      SourcesInAre(last.switches, last, id);
      assert configs == front + [last];
    }
  }

  // ---- merging every switch ----

  /** The checks after the merge, switch by switch. */
  function PostMerge(env: Secrets, sw: SwitchConfig): Result<SwitchConfig> {
    if !RequiredFields(sw) || !SnmpResolves(env, sw.snmp) then Err
    else
      var sw1 := sw.(snmp := ResolveSnmp(env, sw.snmp));
      if !VendorSupports(sw1) then Err
      else
        match Resolve(sw1, false)
        case Err => Err
        case Ok(sw2) =>
          match CheckRefs(sw2, false)
          case Err => Err
          case Ok(sw3) => if sw3.vlans == [] then Err else Ok(sw3)
  }

  method PostMergeCheck(env: Secrets, sw: SwitchConfig) returns (r: Result<SwitchConfig>)
    ensures r == PostMerge(env, sw)
  {
    if !RequiredFields(sw) || !SnmpResolves(env, sw.snmp) { return Err; }
    var sw1 := sw.(snmp := ResolveSnmp(env, sw.snmp));
    if !VendorSupports(sw1) { return Err; }
    r := ResolveVlanNames(sw1, false);
    if r.Err? { return; }
    r := ValidateVlanReferences(r.value, false);
    if r.Ok? && r.value.vlans == [] { r := Err; }
  }

  /** The checks after the merge, exactly: what they accept, and what they make of it. */
  lemma PostMergeExactly(env: Secrets, sw: SwitchConfig)
    ensures PostMerge(env, sw).Ok? <==> CanSettle(env, sw) && sw.vlans != []
    ensures PostMerge(env, sw).Ok? ==> SettledTo(env, sw, PostMerge(env, sw).value)
  {
    CanSettleExactly(env, sw);
    if CanSettle(env, sw) {
      SnmpReadable(env, sw.snmp);
      ReferencesSettled(sw.(snmp := ResolveSnmp(env, sw.snmp)));
    }
  }

  /** The one fate of a switch id: what its sources merge and settle to, if they do. */
  function Fate(env: Secrets, configs: seq<Loaded>, id: string): Result<SwitchConfig> {
    PostMerge(env, MergedSwitch(id, Group(configs, id)))
  }

  datatype Failure = Failure(switchId: string, vlanSources: map<u16, string>, portSources: map<string, string>)

  predicate Mentioned(configs: seq<Loaded>, id: string) { Group(configs, id) != [] }

  ghost predicate NoConflict(configs: seq<Loaded>) {
    forall id :: Mentioned(configs, id) ==> IdentityAgrees(Group(configs, id))
  }

  predicate Among(valid: seq<SwitchConfig>, id: string) { exists i :: 0 <= i < |valid| && valid[i].id == id }

  predicate Failed(failures: seq<Failure>, id: string) { exists i :: 0 <= i < |failures| && failures[i].switchId == id }

  /** A failure names, row by row, the file that would have decided. */
  ghost predicate SourcesReported(configs: seq<Loaded>, f: Failure) {
    var s := StableSort(Group(configs, f.switchId));
    FilesOf(f.vlanSources, Entries(s, VLANS)) && FilesOf(f.portSources, Entries(s, PORTS))
  }

  /** Every id mentioned ends up in exactly one of the two lists, once, by its fate. */
  ghost predicate SortedOut(env: Secrets, configs: seq<Loaded>, ids: set<string>, valid: seq<SwitchConfig>,
      failures: seq<Failure>)
  {
    && (forall i :: 0 <= i < |valid| ==> valid[i].id in ids && Fate(env, configs, valid[i].id) == Ok(valid[i]))
    && (forall i :: 0 <= i < |failures| ==>
          failures[i].switchId in ids && Fate(env, configs, failures[i].switchId).Err? &&
            SourcesReported(configs, failures[i]))
    && (forall id :: id in ids ==> Among(valid, id) || Failed(failures, id))
    && (forall i, j :: 0 <= i < j < |valid| ==> valid[i].id != valid[j].id)
    && (forall i, j :: 0 <= i < j < |failures| ==> failures[i].switchId != failures[j].switchId)
  }

  lemma PostMergeKeepsId(env: Secrets, sw: SwitchConfig)
    requires PostMerge(env, sw).Ok?
    ensures PostMerge(env, sw).value.id == sw.id && PostMerge(env, sw).value.vlans == sw.vlans
  {
  }

  /** `merge_configs`. The ids are visited in no particular order, as a hash map yields them. */
  method MergeAll(env: Secrets, configs: seq<Loaded>) returns (r: Result<(seq<SwitchConfig>, seq<Failure>)>)
    ensures r.Err? <==> configs == [] || !NoConflict(configs)
    ensures r.Ok? ==> SortedOut(env, configs, IdsOf(configs), r.value.0, r.value.1)
  {
    if configs == [] { return Err; }
    var groups := GroupBySwitch(configs);
    var conflicted := AnyConflict(configs, groups);
    if conflicted { return Err; }
    var valid, failures := MergeGroups(env, configs, groups);
    IdsMentioned(configs);
    assert IdsOf(configs) == groups.Keys;
    r := Ok((valid, failures));
  }

  method MergeGroup(env: Secrets, ghost configs: seq<Loaded>, id: string, group: seq<Source>)
    returns (outcome: Result<SwitchConfig>, failure: Failure)
    requires group == Group(configs, id)
    ensures outcome == Fate(env, configs, id)
    ensures failure.switchId == id && SourcesReported(configs, failure)
  {
    var merged, vlanSources, portSources := MergeSingleSwitch(id, group);
    outcome := PostMergeCheck(env, merged);
    failure := Failure(id, vlanSources, portSources);
  }

  method MergeGroups(env: Secrets, ghost configs: seq<Loaded>, groups: map<string, seq<Source>>)
    returns (valid: seq<SwitchConfig>, failures: seq<Failure>)
    requires forall id :: id in groups ==> groups[id] == Group(configs, id)
    ensures SortedOut(env, configs, groups.Keys, valid, failures)
  {
    valid, failures := [], [];
    var rest := groups.Keys;
    while rest != {}
      invariant rest <= groups.Keys
      invariant SortedOut(env, configs, groups.Keys - rest, valid, failures)
      decreases rest
    {
      var id :| id in rest;
      ghost var done := groups.Keys - rest;
      var outcome, failure := MergeGroup(env, configs, id, groups[id]);
      SortOneMore(env, configs, done, valid, failures, failure);
      if outcome.Ok? {
        valid := valid + [outcome.value];
      } else {
        failures := failures + [failure];
      }
      rest := rest - {id};
      assert groups.Keys - rest == done + {id};
    }
    assert groups.Keys - {} == groups.Keys;
  }

  lemma SortOneMore(env: Secrets, configs: seq<Loaded>, ids: set<string>, valid: seq<SwitchConfig>,
      failures: seq<Failure>, f: Failure)
    requires SortedOut(env, configs, ids, valid, failures) && f.switchId !in ids && SourcesReported(configs, f)
    ensures var fate := Fate(env, configs, f.switchId);
      if fate.Ok? then SortedOut(env, configs, ids + {f.switchId}, valid + [fate.value], failures)
      else SortedOut(env, configs, ids + {f.switchId}, valid, failures + [f])
  {
    var fate := Fate(env, configs, f.switchId);
    if fate.Ok? {
      PostMergeKeepsId(env, MergedSwitch(f.switchId, Group(configs, f.switchId)));
      SortOneValid(env, configs, ids, valid, failures, f.switchId, fate.value);
    } else {
      SortOneFailed(env, configs, ids, valid, failures, f);
    }
  }

  lemma SortOneValid(env: Secrets, configs: seq<Loaded>, ids: set<string>, valid: seq<SwitchConfig>,
      failures: seq<Failure>, id: string, sw: SwitchConfig)
    requires SortedOut(env, configs, ids, valid, failures) && id !in ids
    requires sw.id == id && Fate(env, configs, id) == Ok(sw)
    ensures SortedOut(env, configs, ids + {id}, valid + [sw], failures)
  {
    var valid' := valid + [sw];
    assert valid'[|valid|].id == id;
    forall i | 0 <= i < |valid'| ensures Fate(env, configs, valid'[i].id) == Ok(valid'[i]) {
      assert valid'[i] == if i < |valid| then valid[i] else sw;
    }
    forall x | Among(valid, x) ensures Among(valid', x) {
      var i :| 0 <= i < |valid| && valid[i].id == x;
      assert valid'[i].id == x;
    }
  }

  lemma SortOneFailed(env: Secrets, configs: seq<Loaded>, ids: set<string>, valid: seq<SwitchConfig>,
      failures: seq<Failure>, f: Failure)
    requires SortedOut(env, configs, ids, valid, failures)
    requires f.switchId !in ids && Fate(env, configs, f.switchId).Err? && SourcesReported(configs, f)
    ensures SortedOut(env, configs, ids + {f.switchId}, valid, failures + [f])
  {
    var failures' := failures + [f];
    assert failures'[|failures|].switchId == f.switchId;
    forall i | 0 <= i < |failures'|
      ensures Fate(env, configs, failures'[i].switchId).Err? && SourcesReported(configs, failures'[i])
    {
      assert failures'[i] == if i < |failures| then failures[i] else f;
    }
    forall x | Failed(failures, x) ensures Failed(failures', x) {
      var i :| 0 <= i < |failures| && failures[i].switchId == x;
      assert failures'[i].switchId == x;
    }
  }

  /** The ids of all switches in all files. */
  function IdsOf(configs: seq<Loaded>): set<string> {
    set c, sw | c in configs && sw in c.switches :: sw.id
  }

  lemma IdsMentioned(configs: seq<Loaded>)
    ensures forall id :: id in IdsOf(configs) <==> Mentioned(configs, id)
  {
    forall id ensures id in IdsOf(configs) <==> Mentioned(configs, id) {
      if id in IdsOf(configs) {
        var c, sw :| c in configs && sw in c.switches && sw.id == id;
        GroupIs(configs, id, Source(sw, c.priority, c.file));
      }
      if Mentioned(configs, id) {
        var x := Group(configs, id)[0];
        GroupIs(configs, id, x);
      }
    }
  }

  method AnyConflict(configs: seq<Loaded>, groups: map<string, seq<Source>>) returns (any: bool)
    requires forall id :: Group(configs, id) == if id in groups then groups[id] else []
    requires forall id :: id in groups ==> groups[id] != []
    ensures any <==> !NoConflict(configs)
  {
    any := false;
    var rest := groups.Keys;
    while rest != {}
      invariant rest <= groups.Keys
      invariant !any <==> forall id :: id in groups.Keys - rest ==> IdentityAgrees(groups[id])
      decreases rest
    {
      var id :| id in rest;
      var conflicts := ValidateSwitchIdentity(groups[id]);
      if conflicts != [] { any := true; }
      rest := rest - {id};
    }
    assert forall id :: Mentioned(configs, id) <==> id in groups;
    if any {
      ghost var id :| id in groups && !IdentityAgrees(groups[id]);
      assert Mentioned(configs, id) && !IdentityAgrees(Group(configs, id));
    } else {
      assert forall id :: Mentioned(configs, id) ==> IdentityAgrees(groups[id]);
    }
  }

  /** Each id lands exactly once, in exactly one list. */
  lemma EveryIdOnce(env: Secrets, configs: seq<Loaded>, valid: seq<SwitchConfig>, failures: seq<Failure>, id: string)
    requires SortedOut(env, configs, IdsOf(configs), valid, failures) && id in IdsOf(configs)
    ensures Among(valid, id) <==> !Failed(failures, id)
    ensures Among(valid, id) <==> Fate(env, configs, id).Ok?
  {
  }

  /** The order in which ids are visited does not matter: any two outcomes have the same
      valid switches and the same failed ids. */
  lemma OrderIrrelevant(env: Secrets, configs: seq<Loaded>, v1: seq<SwitchConfig>, f1: seq<Failure>,
      v2: seq<SwitchConfig>, f2: seq<Failure>)
    requires SortedOut(env, configs, IdsOf(configs), v1, f1) && SortedOut(env, configs, IdsOf(configs), v2, f2)
    ensures forall sw :: sw in v1 <==> sw in v2
    ensures forall id :: Failed(f1, id) <==> Failed(f2, id)
  {
  }

  // ---- every valid switch is settled ----

  lemma {:induction false} EntriesAreRows<K(!new), R>(s: seq<Source>, c: Component<K, R>)
    ensures forall e :: e in Entries(s, c) ==> exists x :: x in s && e.row in c.rowsOf(x.sw)
  {
    if s != [] {
      EntriesAreRows(s[..|s| - 1], c);
      assert s == s[..|s| - 1] + [s[|s| - 1]];
    }
  }

  lemma MergedRowIsSomeones<K(!new), R>(s: seq<Source>, c: Component<K, R>, i: nat)
    requires StrictOrder(c.lt) && i < |Merged(s, c)|
    ensures exists x :: x in s && RowsOf(Merged(s, c))[i] in c.rowsOf(x.sw)
  {
    OrInsertAllIn(Entries(StableSort(s), c), c.lt);
    EntriesAreRows(StableSort(s), c);
    assert Merged(s, c)[i] in Merged(s, c);
    StableSortSorts(s);
  }

  lemma MergedSwitchIsSound(configs: seq<Loaded>, id: string)
    requires AllSound(configs) && Mentioned(configs, id)
    ensures Sound(MergedSwitch(id, Group(configs, id)))
  {
    var s := Group(configs, id);
    var m := MergedSwitch(id, s);
    forall x | x in s ensures Sound(x.sw) && x.sw.id == id { GroupIs(configs, id, x); }
    assert s[0] in s;
    KeysOrdered();
    forall i | 0 <= i < |m.vlans| ensures ValidVlanId(m.vlans[i].id) { MergedRowIsSomeones(s, VLANS, i); }
    forall i | 0 <= i < |m.ports|
      ensures ValidVlanId(m.ports[i].vlan) && Plain(m.ports[i].portId)
    {
      MergedRowIsSomeones(s, PORTS, i);
    }
    forall i | 0 <= i < |m.portMirrors|
      ensures AllPlain(m.portMirrors[i].sourcePorts) && Plain(m.portMirrors[i].destinationPort)
    {
      MergedRowIsSomeones(s, MIRRORS, i);
    }
  }

  /** A valid switch out of the merge is settled, so single-switch validation accepts it
      and changes nothing; and it has VLANs. */
  lemma MergedIsSettled(env: Secrets, configs: seq<Loaded>, id: string)
    requires AllSound(configs) && Mentioned(configs, id) && Fate(env, configs, id).Ok?
    ensures var sw := Fate(env, configs, id).value;
      Settled(env, sw) && sw.vlans != [] && sw.id == id && Validate(env, sw) == Ok(sw)
  {
    var m := MergedSwitch(id, Group(configs, id));
    MergedSwitchIsSound(configs, id);
    SnmpSettles(env, m);
    SettleRest(env, m.(snmp := ResolveSnmp(env, m.snmp)));
    SettledIsFixed(env, Fate(env, configs, id).value);
  }
}
