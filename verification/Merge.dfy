/** Merging the sources of one switch (switch-configurator/src/config.rs):
    `merge_single_switch`, `merge_snmp_configs`, `validate_switch_identity`. */
module Merge {
  import opened Basics
  import opened Models
  import opened RowMerge

  // ---- key orders ----

  /** The order of strings as map keys: by code point, shorter first. */
  predicate StringLess(a: string, b: string) {
    b != [] && (a == [] || a[0] < b[0] || (a[0] == b[0] && StringLess(a[1..], b[1..])))
  }

  lemma {:induction false} StringLessTransitive(a: string, b: string, c: string)
    requires StringLess(a, b) && StringLess(b, c)
    ensures StringLess(a, c)
  {
    if a != [] && a[0] == b[0] && b[0] == c[0] { StringLessTransitive(a[1..], b[1..], c[1..]); }
  }

  lemma {:induction false} StringLessTotal(a: string, b: string)
    ensures !StringLess(a, a) && (a == b || StringLess(a, b) || StringLess(b, a))
  {
    if a != [] {
      StringLessTotal(a[1..], if b == [] then [] else b[1..]);
      if b != [] && a[0] == b[0] && a[1..] == b[1..] {
        assert a == [a[0]] + a[1..] && b == [b[0]] + b[1..];
      }
    }
  }

  const VLANS: Component<u16, Vlan> :=
    Component((s: SwitchConfig) => s.vlans, (v: Vlan) => v.id, (a: u16, b: u16) => a < b)
  const PORTS: Component<string, Port> :=
    Component((s: SwitchConfig) => s.ports, (p: Port) => p.portId, (a: string, b: string) => StringLess(a, b))
  const MIRRORS: Component<string, PortMirror> :=
    Component((s: SwitchConfig) => s.portMirrors, (m: PortMirror) => m.sessionId,
      (a: string, b: string) => StringLess(a, b))

  lemma KeysOrdered()
    ensures StrictOrder(VLANS.lt) && StrictOrder(PORTS.lt) && StrictOrder(MIRRORS.lt)
  {
    forall a: string, b: string, c: string | StringLess(a, b) && StringLess(b, c) ensures StringLess(a, c) {
      StringLessTransitive(a, b, c);
    }
    forall a: string, b: string ensures !StringLess(a, a) && (a == b || StringLess(a, b) || StringLess(b, a)) {
      StringLessTotal(a, b);
    }
  }

  // ---- the merge loops ----

  ghost predicate FilesOf<K(!new), R>(files: map<K, string>, es: seq<Entry<K, R>>) {
    forall k :: (k in files <==> First(es, k).Some?) && (k in files ==> files[k] == First(es, k).value.file)
  }

  /** The loop over sources and rows that fills the row map and the source map. */
  method MergeComponent<K(==,!new), R>(sorted: seq<Source>, c: Component<K, R>)
    returns (rows: seq<R>, files: map<K, string>)
    ensures rows == RowsOf(OrInsertAll(Entries(sorted, c), c.lt))
    ensures FilesOf(files, Entries(sorted, c))
  {
    var m: seq<Entry<K, R>> := [];
    files := map[];
    for i := 0 to |sorted|
      invariant m == OrInsertAll(Entries(sorted[..i], c), c.lt) && FilesOf(files, Entries(sorted[..i], c))
    {
      assert sorted[..i + 1][..i] == sorted[..i];
      m, files := MergeRows(m, files, c.rowsOf(sorted[i].sw), sorted[i].file, c, Entries(sorted[..i], c));
    }
    assert sorted[..|sorted|] == sorted;
    rows := RowsOf(m);
  }

  method MergeRows<K(==,!new), R>(m: seq<Entry<K, R>>, files: map<K, string>, rows: seq<R>, file: string,
                                  c: Component<K, R>, ghost before: seq<Entry<K, R>>)
    returns (m': seq<Entry<K, R>>, files': map<K, string>)
    requires m == OrInsertAll(before, c.lt) && FilesOf(files, before)
    ensures m' == OrInsertAll(before + RowEntries(rows, file, c), c.lt)
    ensures FilesOf(files', before + RowEntries(rows, file, c))
  {
    m', files' := m, files;
    ghost var new_ := RowEntries(rows, file, c);
    assert before + new_[..0] == before;
    for j := 0 to |rows|
      invariant m' == OrInsertAll(before + new_[..j], c.lt) && FilesOf(files', before + new_[..j])
    {
      var e := Entry(c.key(rows[j]), rows[j], file);
      assert (before + new_[..j + 1])[..|before| + j] == before + new_[..j];
      assert before + new_[..j + 1] == (before + new_[..j]) + [e];
      FirstOfSnoc(before + new_[..j], e);
      if e.key !in files' { files' := files'[e.key := file]; }
      m' := OrInsert(m', e, c.lt);
    }
    assert new_[..|rows|] == new_;
  }

  lemma FirstOfSnoc<K(!new), R>(es: seq<Entry<K, R>>, e: Entry<K, R>)
    ensures forall k ::
      First(es + [e], k) == if First(es, k).Some? then First(es, k) else if e.key == k then Some(e) else None
  {
    forall k
      ensures First(es + [e], k) == if First(es, k).Some? then First(es, k) else if e.key == k then Some(e) else None
    {
      FirstOfConcat(es, [e], k);
    }
  }

  // ---- which source decides ----

  /** Among the sources that have something, `i` has the least priority number and is the
      first of those. */
  ghost predicate Decides(s: seq<Source>, has: SwitchConfig -> bool, i: int) {
    && 0 <= i < |s| && has(s[i].sw)
    && forall j :: 0 <= j < |s| && j != i && has(s[j].sw) ==>
         s[i].priority < s[j].priority || (s[i].priority == s[j].priority && i < j)
  }

  ghost predicate NobodyHas(s: seq<Source>, has: SwitchConfig -> bool) {
    forall i :: 0 <= i < |s| ==> !has(s[i].sw)
  }

  const HAS_HOSTNAME := (x: SwitchConfig) => x.hostname.Some?
  const HAS_MODEL := (x: SwitchConfig) => x.model.Some?
  const HAS_MANAGEMENT_IP := (x: SwitchConfig) => x.managementIp.Some?
  const HAS_CREDENTIALS := (x: SwitchConfig) => x.credentials.Some?
  const HAS_SETTINGS := (x: SwitchConfig) => true
  const HAS_SNMP := (x: SwitchConfig) => x.snmp.Some?
  const HAS_COMMUNITIES := (x: SwitchConfig) => x.snmp.Some? && x.snmp.value.communities != []
  const HAS_TRAP_RECEIVERS := (x: SwitchConfig) => x.snmp.Some? && x.snmp.value.trapReceivers != []
  const HAS_ENABLED_TRAPS := (x: SwitchConfig) => x.snmp.Some? && x.snmp.value.enabledTraps != []
  const HAS_OWN_READS := (x: SwitchConfig) => x.snmp.Some? && x.snmp.value.ownReads.Some?

  /** The merged SNMP configuration, part by part: each is that of the source that decides
      among those that have the part. */
  ghost predicate SnmpDecided(s: seq<Source>, r: Option<SnmpConfig>) {
    && (r.None? <==> NobodyHas(s, HAS_SNMP))
    && (r.Some? ==>
      && (if NobodyHas(s, HAS_COMMUNITIES) then r.value.communities == []
          else exists i :: Decides(s, HAS_COMMUNITIES, i) && r.value.communities == s[i].sw.snmp.value.communities)
      && (if NobodyHas(s, HAS_TRAP_RECEIVERS) then r.value.trapReceivers == []
          else exists i ::
            Decides(s, HAS_TRAP_RECEIVERS, i) && r.value.trapReceivers == s[i].sw.snmp.value.trapReceivers)
      && (if NobodyHas(s, HAS_ENABLED_TRAPS) then r.value.enabledTraps == []
          else exists i ::
            Decides(s, HAS_ENABLED_TRAPS, i) && r.value.enabledTraps == s[i].sw.snmp.value.enabledTraps)
      && (if NobodyHas(s, HAS_OWN_READS) then r.value.ownReads == None
          else exists i :: Decides(s, HAS_OWN_READS, i) && r.value.ownReads == s[i].sw.snmp.value.ownReads))
  }

  /** The merged identity, login and settings, likewise; the management VLAN is dropped. */
  ghost predicate FieldsDecided(s: seq<Source>, r: SwitchConfig) {
    && (if NobodyHas(s, HAS_HOSTNAME) then r.hostname == None
        else exists i :: Decides(s, HAS_HOSTNAME, i) && r.hostname == s[i].sw.hostname)
    && (if NobodyHas(s, HAS_MODEL) then r.model == None
        else exists i :: Decides(s, HAS_MODEL, i) && r.model == s[i].sw.model)
    && (if NobodyHas(s, HAS_MANAGEMENT_IP) then r.managementIp == None
        else exists i :: Decides(s, HAS_MANAGEMENT_IP, i) && r.managementIp == s[i].sw.managementIp)
    && (if NobodyHas(s, HAS_CREDENTIALS) then r.credentials == None
        else exists i :: Decides(s, HAS_CREDENTIALS, i) && r.credentials == s[i].sw.credentials)
    && (if s == [] then r.settings == Settings(30, 3, false, 161)
        else exists i :: Decides(s, HAS_SETTINGS, i) && r.settings == s[i].sw.settings)
    && r.managementVlan == None
  }

  // ---- identity fields ----

  /** The first source of a list that has the field. */
  function FirstSome<T>(s: seq<Source>, f: SwitchConfig -> Option<T>): Option<T> {
    if s == [] then None else if f(s[0].sw).Some? then f(s[0].sw) else FirstSome(s[1..], f)
  }

  method MergeField<T>(sorted: seq<Source>, f: SwitchConfig -> Option<T>) returns (r: Option<T>)
    ensures r == FirstSome(sorted, f)
  {
    r := None;
    for i := 0 to |sorted|
      invariant FirstSome(sorted, f) == if r.Some? then r else FirstSome(sorted[i..], f)
    {
      assert sorted[i..][1..] == sorted[i + 1..];
      if r.None? && f(sorted[i].sw).Some? { r := f(sorted[i].sw); }
    }
  }

  const HOSTNAME := (s: SwitchConfig) => s.hostname
  const MODEL := (s: SwitchConfig) => s.model
  const MANAGEMENT_IP := (s: SwitchConfig) => s.managementIp
  const CREDENTIALS := (s: SwitchConfig) => s.credentials

  /** Whoever has the field says the same. */
  ghost predicate Agree<T(!new)>(s: seq<Source>, f: SwitchConfig -> Option<T>) {
    forall i, j :: 0 <= i < |s| && 0 <= j < |s| && f(s[i].sw).Some? && f(s[j].sw).Some? ==> f(s[i].sw) == f(s[j].sw)
  }

  datatype IdentityField = HostnameField | IpField | ModelField

  datatype MergeConflict = MergeConflict(field: IdentityField, reference: string, other: string)

  ghost predicate Disagree<T>(s: seq<Source>, f: SwitchConfig -> Option<T>, c: MergeConflict) {
    exists i, j :: 0 <= i < |s| && 0 <= j < |s| && f(s[i].sw).Some? && f(s[j].sw).Some? && f(s[i].sw) != f(s[j].sw)
      && c.reference == s[i].file && c.other == s[j].file
  }

  /** A reported conflict names two files that really disagree on that field. */
  ghost predicate Genuine(s: seq<Source>, c: MergeConflict) {
    match c.field
    case HostnameField => Disagree(s, HOSTNAME, c)
    case IpField => Disagree(s, MANAGEMENT_IP, c)
    case ModelField => Disagree(s, MODEL, c)
  }

  method FieldConflicts<T(==,!new)>(s: seq<Source>, f: SwitchConfig -> Option<T>, field: IdentityField)
      returns (conflicts: seq<MergeConflict>)
    ensures conflicts == [] <==> Agree(s, f)
    ensures forall k :: 0 <= k < |conflicts| ==> conflicts[k].field == field && Disagree(s, f, conflicts[k])
  {
    var reference: Option<nat> := None;
    for i := 0 to |s|
      invariant reference.None? ==> forall k :: 0 <= k < i ==> f(s[k].sw).None?
      invariant reference.Some? ==> reference.value < |s| && f(s[reference.value].sw).Some?
    {
      if f(s[i].sw).Some? && reference.None? { reference := Some(i); }
    }
    conflicts := [];
    if reference.None? { return; }
    var r := reference.value;
    for i := 0 to |s|
      invariant conflicts == [] <==> forall k :: 0 <= k < i && f(s[k].sw).Some? ==> f(s[k].sw) == f(s[r].sw)
      invariant forall k :: 0 <= k < |conflicts| ==> conflicts[k].field == field && Disagree(s, f, conflicts[k])
    {
      if f(s[i].sw).Some? && f(s[i].sw) != f(s[r].sw) {
        conflicts := conflicts + [MergeConflict(field, s[r].file, s[i].file)];
      }
    }
  }

  ghost predicate IdentityAgrees(s: seq<Source>) {
    Agree(s, HOSTNAME) && Agree(s, MANAGEMENT_IP) && Agree(s, MODEL)
  }

  /** `validate_switch_identity`. The source checks the three fields in one pass; the
      conflicts are the same, listed field by field here. */
  method ValidateSwitchIdentity(s: seq<Source>) returns (conflicts: seq<MergeConflict>)
    ensures conflicts == [] <==> IdentityAgrees(s)
    ensures forall k :: 0 <= k < |conflicts| ==> Genuine(s, conflicts[k])
  {
    var hostnames := FieldConflicts(s, HOSTNAME, HostnameField);
    var ips := FieldConflicts(s, MANAGEMENT_IP, IpField);
    var models := FieldConflicts(s, MODEL, ModelField);
    conflicts := hostnames + ips + models;
  }

  /** When everyone agrees, the merged field is what any source that has it says,
      whatever the priorities. */
  lemma {:induction false} AgreedFieldIsAnyones<T(!new)>(s: seq<Source>, f: SwitchConfig -> Option<T>, i: nat)
    requires Agree(s, f) && i < |s| && f(s[i].sw).Some?
    ensures FirstSome(StableSort(s), f) == f(s[i].sw)
  {
    StableSortSorts(s);
    FirstSomeIsSomeones(StableSort(s), f);
    assert s[i] in StableSort(s);
  }

  lemma {:induction false} FirstSomeIsSomeones<T>(s: seq<Source>, f: SwitchConfig -> Option<T>)
    ensures FirstSome(s, f).Some? ==> exists x :: x in s && f(x.sw) == FirstSome(s, f)
    ensures FirstSome(s, f).None? ==> forall x :: x in s ==> f(x.sw).None?
  {
    if s != [] && f(s[0].sw).None? {
      FirstSomeIsSomeones(s[1..], f);
      assert s == [s[0]] + s[1..];
    }
  }

  // ---- SNMP ----

  /** A sub-list, if the source has a non-empty one. */
  function NonEmpty<T>(l: seq<T>): Option<seq<T>> { if l == [] then None else Some(l) }

  const COMMUNITIES := (s: SwitchConfig) => if s.snmp.Some? then NonEmpty(s.snmp.value.communities) else None
  const TRAP_RECEIVERS := (s: SwitchConfig) => if s.snmp.Some? then NonEmpty(s.snmp.value.trapReceivers) else None
  const ENABLED_TRAPS := (s: SwitchConfig) => if s.snmp.Some? then NonEmpty(s.snmp.value.enabledTraps) else None
  const OWN_READS := (s: SwitchConfig) => if s.snmp.Some? then s.snmp.value.ownReads else None

  /** The scan with a remembered priority, from the front. */
  function Scan<T>(s: seq<Source>, f: SwitchConfig -> Option<T>): Option<(T, u16)> {
    if s == [] then None
    else
      var best, last := Scan(s[..|s| - 1], f), s[|s| - 1];
      if f(last.sw).Some? && (best.None? || last.priority < best.value.1)
      then Some((f(last.sw).value, last.priority))
      else best
  }

  function Picked<T>(s: seq<Source>, f: SwitchConfig -> Option<T>): Option<T> {
    match Scan(s, f)
    case Some(v) => Some(v.0)
    case None => None
  }

  function OrEmpty<T>(v: Option<seq<T>>): seq<T> { if v.Some? then v.value else [] }

  predicate HasSnmp(s: seq<Source>) { exists i :: 0 <= i < |s| && s[i].sw.snmp.Some? }

  function MergedSnmp(s: seq<Source>): Option<SnmpConfig> {
    if !HasSnmp(s) then None
    else Some(SnmpConfig(OrEmpty(Picked(s, COMMUNITIES)), OrEmpty(Picked(s, TRAP_RECEIVERS)),
                         OrEmpty(Picked(s, ENABLED_TRAPS)), Picked(s, OWN_READS)))
  }

  /** `merge_snmp_configs`: one pass, four independent scans. */
  method MergeSnmpConfigs(s: seq<Source>) returns (r: Option<SnmpConfig>)
    ensures r == MergedSnmp(s)
    ensures SnmpDecided(s, r)
  {
    var found, merged := false, SnmpConfig([], [], [], None);
    var communities: Option<u16>, receivers: Option<u16>, traps: Option<u16>, access: Option<u16> :=
      None, None, None, None;
    for i := 0 to |s|
      invariant found <==> HasSnmp(s[..i])
      invariant Tracks(s[..i], COMMUNITIES, merged.communities, communities)
      invariant Tracks(s[..i], TRAP_RECEIVERS, merged.trapReceivers, receivers)
      invariant Tracks(s[..i], ENABLED_TRAPS, merged.enabledTraps, traps)
      invariant TracksOption(s[..i], OWN_READS, merged.ownReads, access)
    {
      assert s[..i + 1][..i] == s[..i] && s[..i + 1][i] == s[i];
      if s[i].sw.snmp.Some? {
        found := true;
        var snmp := s[i].sw.snmp.value;
        var cs, rs, ts;
        cs, communities := TakeList(s, i, COMMUNITIES, snmp.communities, merged.communities, communities);
        rs, receivers := TakeList(s, i, TRAP_RECEIVERS, snmp.trapReceivers, merged.trapReceivers, receivers);
        ts, traps := TakeList(s, i, ENABLED_TRAPS, snmp.enabledTraps, merged.enabledTraps, traps);
        merged := SnmpConfig(cs, rs, ts, merged.ownReads);
        if snmp.ownReads.Some? && (access.None? || s[i].priority < access.value) {
          merged, access := merged.(ownReads := snmp.ownReads), Some(s[i].priority);
        }
      }
    }
    assert s[..|s|] == s;
    r := if found then Some(merged) else None;
    MergedSnmpIsDecided(s);
  }

  /** Replace a sub-list if the source has one of higher priority. */
  method TakeList<T(==)>(s: seq<Source>, i: nat, ghost f: SwitchConfig -> Option<seq<T>>, candidate: seq<T>,
                         current: seq<T>, priority: Option<u16>)
    returns (current': seq<T>, priority': Option<u16>)
    requires i < |s| && Tracks(s[..i], f, current, priority) && f(s[i].sw) == NonEmpty(candidate)
    ensures Tracks(s[..i + 1], f, current', priority')
  {
    assert s[..i + 1][..i] == s[..i] && s[..i + 1][i] == s[i];
    if candidate != [] && (priority.None? || s[i].priority < priority.value) {
      current', priority' := candidate, Some(s[i].priority);
    } else {
      current', priority' := current, priority;
    }
  }

  predicate TracksOption<T(==)>(s: seq<Source>, f: SwitchConfig -> Option<T>, current: Option<T>,
      priority: Option<u16>)
  {
    && (priority.Some? <==> current.Some?)
    && Scan(s, f) == if current.Some? then Some((current.value, priority.value)) else None
  }

  predicate Tracks<T(==)>(s: seq<Source>, f: SwitchConfig -> Option<seq<T>>, current: seq<T>, priority: Option<u16>) {
    Scan(s, f) == (if priority.Some? then Some((current, priority.value)) else None) &&
      (priority.None? ==> current == [])
  }

  /** The scan finds the value of least priority number, the earliest among equals. */
  lemma {:induction false} ScanPicksLeast<T>(s: seq<Source>, f: SwitchConfig -> Option<T>) returns (at: nat)
    ensures Scan(s, f).None? <==> forall i :: 0 <= i < |s| ==> f(s[i].sw).None?
    ensures Scan(s, f).Some? ==>
      && at < |s| && f(s[at].sw) == Some(Scan(s, f).value.0) && s[at].priority == Scan(s, f).value.1
      && (forall i :: 0 <= i < |s| && f(s[i].sw).Some? ==> s[at].priority <= s[i].priority)
      && (forall i :: 0 <= i < at && f(s[i].sw).Some? ==> s[at].priority < s[i].priority)
  {
    if s == [] {
      at := 0;
    } else {
      var last := s[|s| - 1];
      at := ScanPicksLeast(s[..|s| - 1], f);
      var best := Scan(s[..|s| - 1], f);
      if f(last.sw).Some? && (best.None? || last.priority < best.value.1) { at := |s| - 1; }
    }
  }

  /** On sorted input that is simply the first one there is. */
  lemma {:induction false} SortedScanPicksFirst<T>(s: seq<Source>, f: SwitchConfig -> Option<T>)
    requires SortedByPriority(s)
    ensures Picked(s, f) == FirstSome(s, f)
  {
    var at := ScanPicksLeast(s, f);
    FirstSomeAt(s, f, if Scan(s, f).Some? then at else |s|);
  }

  /** What the scan picks out is that of the source that decides. */
  lemma PickedIsDecided<T>(s: seq<Source>, f: SwitchConfig -> Option<T>, has: SwitchConfig -> bool)
    requires forall x :: has(x) <==> f(x).Some?
    ensures
      if NobodyHas(s, has) then Picked(s, f).None? else exists i :: Decides(s, has, i) && Picked(s, f) == f(s[i].sw)
  {
    var at := ScanPicksLeast(s, f);
    if Scan(s, f).Some? { assert Decides(s, has, at); }
  }

  lemma MergedSnmpIsDecided(s: seq<Source>)
    ensures SnmpDecided(s, MergedSnmp(s))
  {
    PickedIsDecided(s, COMMUNITIES, HAS_COMMUNITIES);
    PickedIsDecided(s, TRAP_RECEIVERS, HAS_TRAP_RECEIVERS);
    PickedIsDecided(s, ENABLED_TRAPS, HAS_ENABLED_TRAPS);
    PickedIsDecided(s, OWN_READS, HAS_OWN_READS);
  }

  // ---- sorting first changes nothing ----

  lemma {:induction false} InsertKeepsScan<T>(t: seq<Source>, x: Source, f: SwitchConfig -> Option<T>)
    requires SortedByPriority(t)
    ensures Scan(InsertStable(t, x), f) == Scan(t + [x], f)
  {
    assert (t + [x])[..|t|] == t;
    if t != [] && t[|t| - 1].priority > x.priority {
      var front, last := t[..|t| - 1], t[|t| - 1];
      InsertKeepsScan(front, x, f);
      assert (front + [x])[..|front|] == front;
      var r := InsertStable(front, x);
      assert (r + [last])[..|r|] == r;
      var at := ScanPicksLeast(front, f);
    }
  }

  /** The scan finds the same whether the sources are sorted first or not. */
  lemma {:induction false} SortKeepsScan<T>(s: seq<Source>, f: SwitchConfig -> Option<T>)
    ensures Scan(StableSort(s), f) == Scan(s, f)
  {
    if s != [] {
      var front, last := s[..|s| - 1], s[|s| - 1];
      SortKeepsScan(front, f);
      StableSortSorts(front);
      InsertKeepsScan(StableSort(front), last, f);
      assert (StableSort(front) + [last])[..|StableSort(front)|] == StableSort(front);
    }
  }

  lemma FirstSomeIsDecided<T>(s: seq<Source>, f: SwitchConfig -> Option<T>, has: SwitchConfig -> bool)
    requires forall x :: has(x) <==> f(x).Some?
    ensures var r := FirstSome(StableSort(s), f);
      if NobodyHas(s, has) then r.None? else exists i :: Decides(s, has, i) && r == f(s[i].sw)
  {
    StableSortSorts(s);
    SortedScanPicksFirst(StableSort(s), f);
    SortKeepsScan(s, f);
    PickedIsDecided(s, f, has);
  }

  lemma {:induction false} FirstSomeAt<T>(s: seq<Source>, f: SwitchConfig -> Option<T>, at: nat)
    requires at <= |s| && forall i :: 0 <= i < at ==> f(s[i].sw).None?
    requires at < |s| ==> f(s[at].sw).Some?
    ensures FirstSome(s, f) == if at < |s| then f(s[at].sw) else None
  {
    if at > 0 { FirstSomeAt(s[1..], f, at - 1); }
  }

  // ---- one switch ----

  function MergedSwitch(id: string, s: seq<Source>): SwitchConfig {
    var sorted := StableSort(s);
    SwitchConfig(id,
      FirstSome(sorted, HOSTNAME), FirstSome(sorted, MODEL), FirstSome(sorted, MANAGEMENT_IP),
      FirstSome(sorted, CREDENTIALS),
      RowsOf(Merged(s, VLANS)), RowsOf(Merged(s, PORTS)), RowsOf(Merged(s, MIRRORS)),
      MergedSnmp(sorted), None, if sorted == [] then DEFAULT_SETTINGS else sorted[0].sw.settings)
  }

  /** Field by field, the merged switch has what the source says that decides about the
      field, over the sources as they came. */
  lemma MergedSwitchIsDecided(id: string, s: seq<Source>)
    ensures MergedSwitch(id, s).id == id
    ensures FieldsDecided(s, MergedSwitch(id, s)) && SnmpDecided(s, MergedSwitch(id, s).snmp)
  {
    FirstSomeIsDecided(s, HOSTNAME, HAS_HOSTNAME);
    FirstSomeIsDecided(s, MODEL, HAS_MODEL);
    FirstSomeIsDecided(s, MANAGEMENT_IP, HAS_MANAGEMENT_IP);
    FirstSomeIsDecided(s, CREDENTIALS, HAS_CREDENTIALS);
    SettingsAreDecided(s);
    SortKeepsSnmp(s);
    MergedSnmpIsDecided(s);
  }

  lemma SortKeepsSnmp(s: seq<Source>)
    ensures MergedSnmp(StableSort(s)) == MergedSnmp(s)
  {
    SortKeepsHavingSnmp(s);
    SortKeepsScan(s, COMMUNITIES);
    SortKeepsScan(s, TRAP_RECEIVERS);
    SortKeepsScan(s, ENABLED_TRAPS);
    SortKeepsScan(s, OWN_READS);
  }

  lemma SortKeepsHavingSnmp(s: seq<Source>)
    ensures HasSnmp(StableSort(s)) <==> HasSnmp(s)
  {
    var sorted := StableSort(s);
    StableSortSorts(s);
    if HasSnmp(sorted) {
      var i :| 0 <= i < |sorted| && sorted[i].sw.snmp.Some?;
      assert sorted[i] in s;
    }
    if HasSnmp(s) {
      var i :| 0 <= i < |s| && s[i].sw.snmp.Some?;
      assert s[i] in sorted;
    }
  }

  lemma SettingsAreDecided(s: seq<Source>)
    ensures (s == [] <==> StableSort(s) == [])
    ensures s != [] ==> exists i :: Decides(s, HAS_SETTINGS, i) && StableSort(s)[0].sw.settings == s[i].sw.settings
  {
    StableSortSorts(s);
    if s != [] {
      assert s[0] in StableSort(s);
      var settings := (x: SwitchConfig) => Some(x.settings);
      FirstSomeIsDecided(s, settings, HAS_SETTINGS);
      assert HAS_SETTINGS(s[0].sw);
    }
  }

  /** `merge_single_switch`. */
  method MergeSingleSwitch(id: string, s: seq<Source>)
    returns (sw: SwitchConfig, vlanSources: map<u16, string>, portSources: map<string, string>)
    ensures sw == MergedSwitch(id, s) && FieldsDecided(s, sw) && SnmpDecided(s, sw.snmp)
    ensures FilesOf(vlanSources, Entries(StableSort(s), VLANS)) && FilesOf(portSources, Entries(StableSort(s), PORTS))
  {
    var sorted := StableSort(s);
    var hostname := MergeField(sorted, HOSTNAME);
    var model := MergeField(sorted, MODEL);
    var ip := MergeField(sorted, MANAGEMENT_IP);
    var credentials := MergeField(sorted, CREDENTIALS);
    var vlans, ports, mirrors, snmp;
    var mirrorSources: map<string, string>;
    vlans, vlanSources := MergeComponent(sorted, VLANS);
    ports, portSources := MergeComponent(sorted, PORTS);
    mirrors, mirrorSources := MergeComponent(sorted, MIRRORS);
    snmp := MergeSnmpConfigs(sorted);
    sw := SwitchConfig(id, hostname, model, ip, credentials, vlans, ports, mirrors, snmp, None,
                       if sorted == [] then DEFAULT_SETTINGS else sorted[0].sw.settings);
    MergedSwitchIsDecided(id, s);
  }

  /** The source maps name exactly the file the merged row came from: that of the winner. */
  lemma SourceMapsNameTheWinner<K(!new), R>(files: map<K, string>, s: seq<Source>, c: Component<K, R>, k: K)
    requires StrictOrder(c.lt) && FilesOf(files, Entries(StableSort(s), c))
    ensures k in files <==> Winner(s, c, k).Some?
    ensures k in files ==> files[k] == Winner(s, c, k).value.file
  {
    FirstOfEntries(StableSort(s), c, k);
    FirstSortedIsWinner(s, c, k);
  }

  ghost predicate RefinesLookup<K(!new), R>(s: seq<Source>, c: Component<K, R>) {
    SortedByKey(Merged(s, c), c.lt) && forall k :: First(Merged(s, c), k) == Lookup(s, c, k)
  }

  /** The merged VLANs, ports and mirrors are, key by key, what a lookup over the sources
      as they came says, and strictly sorted. */
  lemma MergedSwitchRefinesLookup(s: seq<Source>)
    ensures RefinesLookup(s, VLANS) && RefinesLookup(s, PORTS) && RefinesLookup(s, MIRRORS)
  {
    KeysOrdered();
    forall k { MergeRefinesLookup(s, VLANS, k); }
    forall k { MergeRefinesLookup(s, PORTS, k); }
    forall k { MergeRefinesLookup(s, MIRRORS, k); }
    SortedMerge(s, VLANS);
    SortedMerge(s, PORTS);
    SortedMerge(s, MIRRORS);
  }

  /** A source that only repeats merged rows changes none of them. */
  lemma RedundantSourceChangesNothing(a: seq<Source>, x: Source, b: seq<Source>, id: string)
    requires forall i :: 0 <= i < |x.sw.vlans| ==> x.sw.vlans[i] in MergedSwitch(id, a + b).vlans
    requires forall i :: 0 <= i < |x.sw.ports| ==> x.sw.ports[i] in MergedSwitch(id, a + b).ports
    requires forall i :: 0 <= i < |x.sw.portMirrors| ==> x.sw.portMirrors[i] in MergedSwitch(id, a + b).portMirrors
    ensures var merged, again := MergedSwitch(id, a + b), MergedSwitch(id, a + [x] + b);
      again.vlans == merged.vlans && again.ports == merged.ports && again.portMirrors == merged.portMirrors
  {
    KeysOrdered();
    forall i | 0 <= i < |x.sw.vlans| { RowIsThere(a + b, VLANS, x.sw.vlans[i]); }
    forall i | 0 <= i < |x.sw.ports| { RowIsThere(a + b, PORTS, x.sw.ports[i]); }
    forall i | 0 <= i < |x.sw.portMirrors| { RowIsThere(a + b, MIRRORS, x.sw.portMirrors[i]); }
    RedundantSource(a, x, b, VLANS);
    RedundantSource(a, x, b, PORTS);
    RedundantSource(a, x, b, MIRRORS);
  }
}
