/** What a port of a saved overlay is when everything is loaded and merged again
    (switch-configurator/src/api/handlers.rs, `save_overlay`; config.rs). */
module SaveLoadTheorems {
  import opened Basics
  import opened Models
  import opened VlanNames
  import opened RowMerge
  import opened Merge
  import opened Validation
  import opened MergeConfigs
  import opened ConfigFiles
  import opened Store
  import opened SaveLoad
  import opened SaveOutcome

  // ---- external VLANs are there after the merge ----

  ghost predicate SomeoneDeclares(cs: seq<Loaded>, switchId: string, id: u16) {
    exists c :: c in cs && Declares(c, switchId, id)
  }

  /** What the save check knew from other files is declared by the sources loaded later. */
  lemma ExternalStays(s: Save, switchId: string, id: u16)
    requires s.Done() && KnownExternally(s.before, switchId, s.Path(), id) && LoadSources(s.after).Ok?
    ensures SomeoneDeclares(LoadSources(s.after).value, switchId, id)
  {
    SourcesAfter(s);
    var main := LoadFile(s.before.main, s.before.mainFile, false);
    if s.before.mainFile != s.Path() && main.Ok? && Declares(main.value, switchId, id) {
      assert OtherSource(s, main.value);
    } else {
      var f :| f in s.before.folders && ScanFolder(f).Ok? && DeclaredIn(ScanFolder(f).value, switchId, s.Path(), id);
      var c :| c in ScanFolder(f).value && c.file != s.Path() && Declares(c, switchId, id);
      LoadFilesExact(f.path, f.files);
      var x :| x in f.files && Scanned(x.name) && LoadFile(x.content, Join(f.path, x.name), true) == Ok(c);
      LoadFileIsSound(x.content, Join(f.path, x.name), true);
      assert FileLoads(s.before, f, x, c) && Untouched(s, f, x);
      assert OtherSource(s, c);
    }
  }

  lemma DeclaredIsMerged(cs: seq<Loaded>, switchId: string, id: u16)
    requires SomeoneDeclares(cs, switchId, id)
    ensures exists v :: v in MergedSwitch(switchId, Group(cs, switchId)).vlans && v.id == id
  {
    var c :| c in cs && Declares(c, switchId, id);
    var sw, v :| sw in c.switches && v in sw.vlans && sw.id == switchId && v.id == id;
    var s := Group(cs, switchId);
    var x := Source(sw, c.priority, c.file);
    GroupIs(cs, switchId, x);
    FirstRowIsARow(sw.vlans, VLANS, id);
    assert Defines(x, VLANS, id);
    WinnerDefines(s, VLANS, id);
    KeysOrdered();
    MergeRefinesLookup(s, VLANS, id);
    var i := FirstIsIn(Merged(s, VLANS), id);
    KeyedRows(s, VLANS, i);
    assert RowsOf(Merged(s, VLANS))[i].id == id;
  }

  lemma KeyedRows<K(!new), R>(s: seq<Source>, c: Component<K, R>, i: nat)
    requires StrictOrder(c.lt) && i < |Merged(s, c)|
    ensures c.key(Merged(s, c)[i].row) == Merged(s, c)[i].key
  {
    OrInsertAllIn(Entries(StableSort(s), c), c.lt);
    EntriesKeyed(StableSort(s), c);
    assert Merged(s, c)[i] in Merged(s, c);
  }

  // ---- which name a VLAN id has after the merge ----

  /** The row of a merged list with a given key is the winner's. */
  lemma MergedRowOf<K(!new), R>(s: seq<Source>, c: Component<K, R>, x: Source, row: R) returns (at: nat)
    requires StrictOrder(c.lt) && Winner(s, c, c.key(row)) == Some(x) &&
      Find(c.rowsOf(x.sw), c.key, c.key(row)) == Some(row)
    ensures at < |RowsOf(Merged(s, c))| && RowsOf(Merged(s, c))[at] == row
    ensures forall i :: 0 <= i < |RowsOf(Merged(s, c))| && i != at ==> c.key(RowsOf(Merged(s, c))[i]) != c.key(row)
  {
    var m, k := Merged(s, c), c.key(row);
    MergeRefinesLookup(s, c, k);
    at := FirstIsIn(m, k);
    forall i | 0 <= i < |m| && i != at ensures c.key(m[i].row) != k {
      KeyedRows(s, c, i);
      assert i < at ==> c.lt(m[i].key, m[at].key);
      assert at < i ==> c.lt(m[at].key, m[i].key);
    }
  }

  /** The source's first row for the id, if any, has that name. */
  predicate GivesName(x: Source, id: u16, name: string) {
    var row := Find(x.sw.vlans, VLANS.key, id);
    row.Some? && row.value.name == name
  }

  /** The source that decides about the id gives it that name. */
  predicate WinnerNames(s: seq<Source>, id: u16, name: string) {
    var x := Winner(s, VLANS, id);
    x.Some? && GivesName(x.value, id, name)
  }

  /** A row with that id and name is merged exactly when the deciding source gives that name. */
  lemma MergedNameExact(s: seq<Source>, id: u16, name: string)
    ensures HasRow(RowsOf(Merged(s, VLANS)), id, name) <==> WinnerNames(s, id, name)
  {
    var rows := RowsOf(Merged(s, VLANS));
    KeysOrdered();
    WinnerDefines(s, VLANS, id);
    if WinnerNames(s, id, name) {
      var x := Winner(s, VLANS, id).value;
      FirstRowIsARow(x.sw.vlans, VLANS, id);
      var at := MergedRowOf(s, VLANS, x, Find(x.sw.vlans, VLANS.key, id).value);
    }
    if HasRow(rows, id, name) {
      var j :| 0 <= j < |rows| && rows[j].id == id && rows[j].name == name;
      RowIsThere(s, VLANS, rows[j]);
      MergeRefinesLookup(s, VLANS, id);
    }
  }

  /** No VLAN is renamed by the merge exactly when each keeps its name with the source that
      decides about its id. */
  lemma NotRenamedExact(s: seq<Source>, vlans: seq<Vlan>)
    ensures NotRenamed(vlans, RowsOf(Merged(s, VLANS))) <==>
      forall i :: 0 <= i < |vlans| ==> WinnerNames(s, vlans[i].id, vlans[i].name)
  {
    forall i | 0 <= i < |vlans| { MergedNameExact(s, vlans[i].id, vlans[i].name); }
  }

  /** No source that may outrank `own` gives one of its VLAN ids another name. */
  ghost predicate NobodyRenames(s: seq<Source>, own: Source) {
    forall x, v :: x in s && v in own.sw.vlans && x.priority <= own.priority && Defines(x, VLANS, v.id)
      ==> GivesName(x, v.id, v.name)
  }

  lemma NobodyRenamesSuffices(s: seq<Source>, own: Source, i: nat)
    requires own in s && NobodyRenames(s, own) && i < |own.sw.vlans|
    ensures WinnerNames(s, own.sw.vlans[i].id, own.sw.vlans[i].name)
  {
    var v := own.sw.vlans[i];
    FirstRowIsARow(own.sw.vlans, VLANS, v.id);
    assert v in own.sw.vlans && Defines(own, VLANS, v.id);
    WinnerDefines(s, VLANS, v.id);
  }

  // ---- the port that wins ----

  /** The checks after the merge finish each port in its place. */
  lemma PostMergeFinishes(env: Secrets, m: SwitchConfig, i: nat)
    requires PostMerge(env, m).Ok? && i < |m.ports|
    ensures m.model.Some? && ResolvePort(m.vlans, m.ports[i], false).Ok?
    ensures |PostMerge(env, m).value.ports| == |m.ports| && PostMerge(env, m).value.ports[i] == Finish(m, m.ports[i])
    ensures PostMerge(env, m).value.ports[i].portId == m.ports[i].portId && PostMerge(env, m).value.vlans == m.vlans
  {
    var sw1 := m.(snmp := ResolveSnmp(env, m.snmp));
    var sw2 := Resolve(sw1, false).value;
    assert ResolvePort(sw1.vlans, sw1.ports[i], false).Ok?;
    CheckRefsCloses(sw2);
    KeepDefinedSame(sw2, m, sw2.ports[i].taggedVlans);
  }

  lemma {:induction false} KnownIdsFrom(vlans: seq<Vlan>, refs: seq<VlanRef>)
    ensures forall id :: id in KnownIds(vlans, refs) ==>
      exists i :: 0 <= i < |refs| && RefId(vlans, refs[i]) == Some(id)
  {
    if refs != [] {
      KnownIdsFrom(vlans, refs[..|refs| - 1]);
      forall id | id in KnownIds(vlans, refs) ensures exists i :: 0 <= i < |refs| && RefId(vlans, refs[i]) == Some(id) {
        if id in KnownIds(vlans, refs[..|refs| - 1]) {
          var i :| 0 <= i < |refs| - 1 && RefId(vlans, refs[..|refs| - 1][i]) == Some(id);
          assert refs[i] == refs[..|refs| - 1][i];
        } else {
          assert RefId(vlans, refs[|refs| - 1]) == Some(id);
        }
      }
    }
  }

  /** Whatever a written reference means in a list that has all external VLANs is defined there. */
  lemma WrittenRefIsDefined(ov: SwitchConfig, external: set<u16>, m: SwitchConfig, id: u16, means: u16)
    requires m.model.Some? && Referable(ov, external, id)
    requires forall e :: e in external ==> exists v :: v in m.vlans && v.id == e
    requires RefId(m.vlans, WrittenRef(ov.vlans, id)) == Some(means)
    ensures Defined(m, means)
  {
    NameOfIsARow(ov.vlans, id);
    match WrittenRef(ov.vlans, id) {
      case Name(name) =>
        IdOfIsARow(m.vlans, name);
      case Id(n) =>
        assert forall v :: v in ov.vlans ==> v.id != id;
    }
  }

  /** Dropping undefined tagged VLANs drops nothing from a port read back. */
  lemma NothingDropped(ov: SwitchConfig, external: set<u16>, m: SwitchConfig, p: Port)
    requires m.model.Some? && p in ov.ports && OverlayRefsOk(ov, external)
    requires forall e :: e in external ==> exists v :: v in m.vlans && v.id == e
    requires ReadBack(ov.vlans, m.vlans, p).Ok?
    ensures Finish(m, Split(Written(ov.vlans, p))) == ReadBack(ov.vlans, m.vlans, p).value
  {
    var refs, q := WrittenRefs(ov.vlans, p.taggedVlans), ReadBack(ov.vlans, m.vlans, p).value;
    var ip :| 0 <= ip < |ov.ports| && ov.ports[ip] == p;
    KnownIdsFrom(m.vlans, refs);
    var at := DedupKeepsFirst(KnownIds(m.vlans, refs));
    forall id | id in q.taggedVlans ensures Defined(m, id) {
      var i :| 0 <= i < |refs| && RefId(m.vlans, refs[i]) == Some(id);
      assert p.taggedVlans[i] in p.taggedVlans;
      WrittenRefIsDefined(ov, external, m, p.taggedVlans[i], id);
    }
    KeepDefinedKeeps(m, q.taggedVlans);
  }

  /** The sources of one switch of the overlay when everything is loaded again. */
  function SourcesOf(s: Save, k: nat): seq<Source>
    requires k < |s.accepted| && LoadSources(s.after).Ok?
  {
    Group(LoadSources(s.after).value, s.accepted[k].id)
  }

  /** Of all sources, the overlay decides about the port. */
  predicate WinsMerge(s: Save, k: nat, p: Port)
    requires k < |s.accepted| && LoadSources(s.after).Ok?
  {
    Winner(SourcesOf(s, k), PORTS, p.portId) == Some(s.Own(k))
  }

  /** The switch with the id of one in the overlay, out of a load after the save. */
  ghost predicate Yields(env: Secrets, s: Save, valid: seq<SwitchConfig>, failed: seq<string>, k: nat,
      sw: SwitchConfig)
  {
    && s.Done() && LoadedBy(env, s.after, valid, failed)
    && k < |s.accepted| && Find(valid, SWITCH_ID, s.accepted[k].id) == Some(sw)
  }

  lemma {:induction false} FindIsIn<K, R>(rows: seq<R>, key: R -> K, k: K)
    ensures Find(rows, key, k).Some? ==> Find(rows, key, k).value in rows && key(Find(rows, key, k).value) == k
  {
    if rows != [] && key(rows[0]) != k { FindIsIn(rows[1..], key, k); }
  }

  /** What a load from several files yields for an id is what its sources merge and settle to. */
  lemma FoundIsFate(env: Secrets, d: Disk, valid: seq<SwitchConfig>, failed: seq<string>, id: string, sw: SwitchConfig)
    requires d.folders != [] && LoadedBy(env, d, valid, failed) && Find(valid, SWITCH_ID, id) == Some(sw)
    ensures Fate(env, LoadSources(d).value, id) == Ok(sw)
  {
    var cs := LoadSources(d).value;
    var failures :| SortedOut(env, cs, IdsOf(cs), valid, failures) && FailedIds(failures) == failed;
    FindIsIn(valid, SWITCH_ID, id);
    var i :| 0 <= i < |valid| && valid[i] == sw;
  }

  lemma YieldedIsFate(env: Secrets, s: Save, valid: seq<SwitchConfig>, failed: seq<string>, k: nat, sw: SwitchConfig)
    requires Yields(env, s, valid, failed, k, sw)
    ensures LoadSources(s.after).Ok? && Fate(env, LoadSources(s.after).value, s.accepted[k].id) == Ok(sw)
    ensures sw.vlans == RowsOf(Merged(SourcesOf(s, k), VLANS)) && Unambiguous(sw.vlans)
  {
    FilesAfter(s, 0);
    FoundIsFate(env, s.after, valid, failed, s.accepted[k].id, sw);
  }

  lemma OwnRow(ov: SwitchConfig, p: Port)
    requires p in ov.ports && DistinctPortIds(ov.ports)
    ensures Find(PORTS.rowsOf(Reread(ov)), PORTS.key, p.portId) == Some(Split(Written(ov.vlans, p)))
  {
    var i :| 0 <= i < |ov.ports| && ov.ports[i] == p;
    var rows := Reread(ov).ports;
    forall j | 0 <= j < |rows|
      ensures rows[j] == Split(Written(ov.vlans, ov.ports[j])) && rows[j].portId == ov.ports[j].portId
    {
    }
    FindIs(rows, PORTS.key, p.portId, i);
  }

  lemma ExternalIsMerged(s: Save, k: nat)
    requires s.Done() && LoadSources(s.after).Ok? && k < |s.accepted|
    ensures forall e :: e in s.External(k) ==> exists v :: v in RowsOf(Merged(SourcesOf(s, k), VLANS)) && v.id == e
  {
    AcceptedIsReady(s.switches[k], s.External(k));
    forall e | e in s.External(k) ensures exists v :: v in RowsOf(Merged(SourcesOf(s, k), VLANS)) && v.id == e {
      ExternalStays(s, s.accepted[k].id, e);
      DeclaredIsMerged(LoadSources(s.after).value, s.accepted[k].id, e);
    }
  }

  /** A port of a saved overlay that wins the merge: whatever a load yields for its switch
      has exactly what writing the port with the overlay's names and reading it with the
      merged names makes of it. */
  lemma SavedPortIsReadBack(env: Secrets, s: Save, valid: seq<SwitchConfig>, failed: seq<string>,
                            k: nat, sw: SwitchConfig, p: Port)
    requires Yields(env, s, valid, failed, k, sw)
    requires p in s.accepted[k].ports && WinsMerge(s, k, p)
    ensures ReadBack(s.accepted[k].vlans, sw.vlans, p).Ok?
    ensures Find(sw.ports, PORTS.key, p.portId) == Some(ReadBack(s.accepted[k].vlans, sw.vlans, p).value)
  {
    YieldedIsFate(env, s, valid, failed, k, sw);
    AcceptedIsReady(s.switches[k], s.External(k));
    ExternalIsMerged(s, k);
    WonPortIsReadBack(env, SourcesOf(s, k), s.Own(k), s.accepted[k], s.External(k), sw, p);
  }

  /** The same for any ready overlay switch among the sources of one switch. */
  lemma WonPortIsReadBack(env: Secrets, group: seq<Source>, own: Source, ov: SwitchConfig, external: set<u16>,
                          sw: SwitchConfig, p: Port)
    requires Ready(ov, external) && own.sw == Reread(ov) && p in ov.ports
    requires PostMerge(env, MergedSwitch(ov.id, group)) == Ok(sw) && Winner(group, PORTS, p.portId) == Some(own)
    requires forall e :: e in external ==> exists v :: v in RowsOf(Merged(group, VLANS)) && v.id == e
    ensures sw.vlans == RowsOf(Merged(group, VLANS)) && ReadBack(ov.vlans, sw.vlans, p).Ok?
    ensures Find(sw.ports, PORTS.key, p.portId) == Some(ReadBack(ov.vlans, sw.vlans, p).value)
  {
    var m := MergedSwitch(ov.id, group);
    PostMergeKeepsId(env, m);
    OwnRow(ov, p);
    KeysOrdered();
    var at := MergedRowOf(group, PORTS, own, Split(Written(ov.vlans, p)));
    PortsFinish(env, m, sw, at);
    NothingDropped(ov, external, m, p);
  }

  lemma PortsFinish(env: Secrets, m: SwitchConfig, sw: SwitchConfig, at: nat)
    requires PostMerge(env, m) == Ok(sw) && at < |m.ports|
    requires forall i :: 0 <= i < |m.ports| && i != at ==> m.ports[i].portId != m.ports[at].portId
    ensures m.model.Some? && ResolvePort(m.vlans, m.ports[at], false).Ok?
    ensures Find(sw.ports, PORTS.key, m.ports[at].portId) == Some(Finish(m, m.ports[at]))
  {
    forall i | 0 <= i < |m.ports| ensures i < |sw.ports| && sw.ports[i].portId == m.ports[i].portId {
      PostMergeFinishes(env, m, i);
    }
    PostMergeFinishes(env, m, at);
    FindIs(sw.ports, PORTS.key, m.ports[at].portId, at);
  }

  /** Every VLAN name the port is written with still belongs to its id by the source that
      decides about that id. */
  predicate NamesStand(group: seq<Source>, own: seq<Vlan>, p: Port) {
    && (NameOf(own, p.vlan).Some? ==> WinnerNames(group, p.vlan, NameOf(own, p.vlan).value))
    && (forall id :: id in p.taggedVlans && NameOf(own, id).Some? ==> WinnerNames(group, id, NameOf(own, id).value))
  }

  lemma NamesStandExact(group: seq<Source>, own: seq<Vlan>, p: Port)
    requires Unambiguous(RowsOf(Merged(group, VLANS)))
    ensures NamesStand(group, own, p) <==> NamesKept(own, RowsOf(Merged(group, VLANS)), p)
  {
    var rows := RowsOf(Merged(group, VLANS));
    forall id: u16 | NameOf(own, id).Some?
      ensures WinnerNames(group, id, NameOf(own, id).value) <==> NameKept(own, rows, id)
    {
      MergedNameExact(group, id, NameOf(own, id).value);
      IdOfUnambiguous(rows, NameOf(own, id).value, id);
    }
  }

  /** Save, then load: exactly when is a winning port the port that was saved? When every
      VLAN name it is written with still belongs to its id by the source that decides about
      that id, and a tagged list written with a name has no repetition. */
  lemma SavedPortComesBack(env: Secrets, s: Save, valid: seq<SwitchConfig>, failed: seq<string>,
                           k: nat, sw: SwitchConfig, p: Port)
    requires Yields(env, s, valid, failed, k, sw)
    requires p in s.accepted[k].ports && WinsMerge(s, k, p)
    ensures Find(sw.ports, PORTS.key, p.portId) == Some(p) <==>
      && NamesStand(SourcesOf(s, k), s.accepted[k].vlans, p)
      && (AnyName(WrittenRefs(s.accepted[k].vlans, p.taggedVlans)) ==> Distinct(p.taggedVlans))
  {
    SavedPortIsReadBack(env, s, valid, failed, k, sw, p);
    YieldedIsFate(env, s, valid, failed, k, sw);
    AcceptedIsReady(s.switches[k], s.External(k));
    NamesStandExact(SourcesOf(s, k), s.accepted[k].vlans, p);
    ReadBackExact(s.accepted[k].vlans, sw.vlans, p);
  }

  /** The port as saved, at most without repetitions among its tagged VLANs. */
  predicate BackAs(q: Option<Port>, p: Port) {
    q.Some? && q.value in {p, p.(taggedVlans := Dedup(p.taggedVlans))}
  }

  lemma UnrenamedReadBack(own: seq<Vlan>, merged: seq<Vlan>, p: Port)
    requires p.Resolved() && Unambiguous(merged) && NotRenamed(own, merged)
    ensures ReadBack(own, merged, p).Ok? && BackAs(Some(ReadBack(own, merged, p).value), p)
  {
    ContainedNamesKept(own, merged, p);
    ReadBackKeeps(own, merged, p);
  }

  /** So unless the source that decides about one of the overlay's VLAN ids gives it another
      name, every winning port comes back. */
  lemma UnrenamedPortComesBack(env: Secrets, s: Save, valid: seq<SwitchConfig>, failed: seq<string>,
                               k: nat, sw: SwitchConfig, p: Port)
    requires Yields(env, s, valid, failed, k, sw)
    requires p in s.accepted[k].ports && WinsMerge(s, k, p)
    requires forall i :: 0 <= i < |s.accepted[k].vlans| ==>
      WinnerNames(SourcesOf(s, k), s.accepted[k].vlans[i].id, s.accepted[k].vlans[i].name)
    ensures BackAs(Find(sw.ports, PORTS.key, p.portId), p)
  {
    SavedPortIsReadBack(env, s, valid, failed, k, sw, p);
    YieldedIsFate(env, s, valid, failed, k, sw);
    AcceptedIsReady(s.switches[k], s.External(k));
    NotRenamedExact(SourcesOf(s, k), s.accepted[k].vlans);
    UnrenamedReadBack(s.accepted[k].vlans, sw.vlans, p);
  }

  // ---- an overlay that decides ----

  /** Every switch of an overlay that is read is a source of its id. */
  lemma OverlayIsSource(s: Save, k: nat)
    requires s.Done() && LoadSources(s.after).Ok? && IsRead(s) && k < |s.accepted|
    ensures s.Own(k) in SourcesOf(s, k)
  {
    SourcesAfter(s);
    assert SavedSource(s).switches[k] == Reread(s.accepted[k]);
    GroupIs(LoadSources(s.after).value, s.accepted[k].id, s.Own(k));
  }

  /** Unless a source of the same or a better priority renames one of its VLAN ids, every
      port the overlay wins comes back. */
  lemma PortComesBackUnlessRenamed(env: Secrets, s: Save, valid: seq<SwitchConfig>, failed: seq<string>,
                                   k: nat, sw: SwitchConfig, p: Port)
    requires Yields(env, s, valid, failed, k, sw) && IsRead(s)
    requires p in s.accepted[k].ports && WinsMerge(s, k, p)
    requires NobodyRenames(SourcesOf(s, k), s.Own(k))
    ensures BackAs(Find(sw.ports, PORTS.key, p.portId), p)
  {
    OverlayIsSource(s, k);
    forall i | 0 <= i < |s.accepted[k].vlans|
      ensures WinnerNames(SourcesOf(s, k), s.accepted[k].vlans[i].id, s.accepted[k].vlans[i].name)
    {
      NobodyRenamesSuffices(SourcesOf(s, k), s.Own(k), i);
    }
    UnrenamedPortComesBack(env, s, valid, failed, k, sw, p);
  }

  /** `own` is in `s`, and every other source there has a worse priority. */
  ghost predicate AloneBest(s: seq<Source>, own: Source) {
    own in s && forall x :: x in s && x.priority <= own.priority ==> x == own
  }

  /** Such a source decides about everything it defines. */
  lemma BestDecides<K(!new), R>(s: seq<Source>, own: Source, c: Component<K, R>, k: K)
    requires AloneBest(s, own) && Defines(own, c, k)
    ensures Winner(s, c, k) == Some(own)
  {
    WinnerDefines(s, c, k);
  }

  lemma AloneRenamesNothing(s: seq<Source>, own: Source)
    requires AloneBest(s, own) && DistinctVlanIds(own.sw.vlans)
    ensures NobodyRenames(s, own)
  {
    forall v | v in own.sw.vlans ensures GivesName(own, v.id, v.name) {
      var i :| 0 <= i < |own.sw.vlans| && own.sw.vlans[i] == v;
      FindIs(own.sw.vlans, VLANS.key, v.id, i);
    }
  }

  /** When an overlay was saved under a better priority than every other source of a switch
      of it, and a load yields that switch, all its ports come back. */
  lemma DecidingOverlayComesBack(env: Secrets, s: Save, valid: seq<SwitchConfig>, failed: seq<string>,
                                 k: nat, sw: SwitchConfig, p: Port)
    requires Yields(env, s, valid, failed, k, sw) && IsRead(s)
    requires p in s.accepted[k].ports
    requires forall x :: x in SourcesOf(s, k) && x.priority <= s.priority ==> x == s.Own(k)
    ensures BackAs(Find(sw.ports, PORTS.key, p.portId), p)
  {
    OverlayIsSource(s, k);
    AcceptedIsReady(s.switches[k], s.External(k));
    OwnRow(s.accepted[k], p);
    BestDecides(SourcesOf(s, k), s.Own(k), PORTS, p.portId);
    AloneRenamesNothing(SourcesOf(s, k), s.Own(k));
    PortComesBackUnlessRenamed(env, s, valid, failed, k, sw, p);
  }
}
