/** Merging one component (VLANs, ports or mirrors) of one switch from several
    sources: the first definition in stable priority order wins
    (switch-configurator/src/config.rs, `merge_single_switch`). */
module RowMerge {
  import opened Basics
  import opened Models

  /** One source's part about one switch. A lower number is a higher priority. */
  datatype Source = Source(sw: SwitchConfig, priority: u16, file: string)

  /** Where a component's rows are, what identifies a row, and the key order. */
  datatype Component<!K(==,!new), !R> = Component(rowsOf: SwitchConfig -> seq<R>, key: R -> K, lt: (K, K) -> bool)

  ghost predicate StrictOrder<K(!new)>(lt: (K, K) -> bool) {
    && (forall a :: !lt(a, a))
    && (forall a, b, c :: lt(a, b) && lt(b, c) ==> lt(a, c))
    && (forall a, b :: a == b || lt(a, b) || lt(b, a))
  }

  // ---- the stable sort by priority ----

  const PRIORITY := (x: Source) => x.priority

  function InsertStable(sorted: seq<Source>, x: Source): seq<Source> { InsertBy(sorted, x, PRIORITY) }

  /** `sort_by_key(|c| c.merge_priority)` on the sources of one switch. */
  function StableSort(s: seq<Source>): seq<Source> { SortBy(s, PRIORITY) }

  predicate SortedByPriority(s: seq<Source>) {
    forall i, j :: 0 <= i < j < |s| ==> s[i].priority <= s[j].priority
  }

  /** The sources of one priority, in order. */
  function OfPriority(s: seq<Source>, p: u16): seq<Source> {
    if s == [] then []
    else OfPriority(s[..|s| - 1], p) + if s[|s| - 1].priority == p then [s[|s| - 1]] else []
  }

  lemma {:induction false} InsertStableSorts(t: seq<Source>, x: Source)
    requires SortedByPriority(t)
    ensures SortedByPriority(InsertStable(t, x))
    ensures forall y :: y in InsertStable(t, x) <==> y in t || y == x
  {
    if t != [] && t[|t| - 1].priority > x.priority {
      var front, last := t[..|t| - 1], t[|t| - 1];
      InsertStableSorts(front, x);
      var r := InsertStable(front, x);
      assert t == front + [last];
      forall i | 0 <= i < |r| ensures r[i].priority <= last.priority {
        assert r[i] in r;
      }
    }
  }

  lemma {:induction false} InsertStableIsStable(t: seq<Source>, x: Source, p: u16)
    ensures OfPriority(InsertStable(t, x), p) == OfPriority(t, p) + if x.priority == p then [x] else []
  {
    if t == [] || t[|t| - 1].priority <= x.priority {
      assert (t + [x])[..|t|] == t;
    } else {
      var front, last := t[..|t| - 1], t[|t| - 1];
      InsertStableIsStable(front, x, p);
      var r := InsertStable(front, x);
      assert (r + [last])[..|r|] == r;
    }
  }

  /** It sorts, and has the same sources. */
  lemma {:induction false} StableSortSorts(s: seq<Source>)
    ensures SortedByPriority(StableSort(s))
    ensures forall x :: x in StableSort(s) <==> x in s
  {
    if s != [] {
      StableSortSorts(s[..|s| - 1]);
      InsertStableSorts(StableSort(s[..|s| - 1]), s[|s| - 1]);
      assert s == s[..|s| - 1] + [s[|s| - 1]];
    }
  }

  /** It keeps the sources of each priority in their order. */
  lemma {:induction false} StableSortIsStable(s: seq<Source>, p: u16)
    ensures OfPriority(StableSort(s), p) == OfPriority(s, p)
  {
    if s != [] {
      StableSortIsStable(s[..|s| - 1], p);
      InsertStableIsStable(StableSort(s[..|s| - 1]), s[|s| - 1], p);
    }
  }

  // ---- a simple lookup, straight over the unsorted sources ----

  predicate Defines<K(==,!new), R>(x: Source, c: Component<K, R>, k: K) {
    Find(c.rowsOf(x.sw), c.key, k).Some?
  }

  /** The source that decides about `k`: least priority number, earliest among equals. */
  function Winner<K(==,!new), R>(s: seq<Source>, c: Component<K, R>, k: K): Option<Source> {
    if s == [] then None
    else
      var best, last := Winner(s[..|s| - 1], c, k), s[|s| - 1];
      if Defines(last, c, k) && (best.None? || last.priority < best.value.priority) then Some(last) else best
  }

  lemma {:induction false} WinnerDefines<K(!new), R>(s: seq<Source>, c: Component<K, R>, k: K)
    ensures Winner(s, c, k).Some? ==> Winner(s, c, k).value in s && Defines(Winner(s, c, k).value, c, k)
    ensures Winner(s, c, k).None? <==> forall x :: x in s ==> !Defines(x, c, k)
    ensures Winner(s, c, k).Some? ==> forall x :: x in s && Defines(x, c, k) ==>
      Winner(s, c, k).value.priority <= x.priority
  {
    if s != [] {
      WinnerDefines(s[..|s| - 1], c, k);
      assert s == s[..|s| - 1] + [s[|s| - 1]];
    }
  }

  // ---- what the loops compute ----

  /** One definition met on the way: a row and the file it stands in. */
  datatype Entry<K, R> = Entry(key: K, row: R, file: string)

  /** All rows of all sources, in order. */
  function RowEntries<K(==,!new), R>(rows: seq<R>, file: string, c: Component<K, R>): seq<Entry<K, R>> {
    seq(|rows|, i requires 0 <= i < |rows| => Entry(c.key(rows[i]), rows[i], file))
  }

  function Entries<K(==,!new), R>(s: seq<Source>, c: Component<K, R>): seq<Entry<K, R>> {
    if s == [] then []
    else Entries(s[..|s| - 1], c) + RowEntries(c.rowsOf(s[|s| - 1].sw), s[|s| - 1].file, c)
  }

  function First<K(==), R>(es: seq<Entry<K, R>>, k: K): Option<Entry<K, R>> {
    if es == [] then None else if es[0].key == k then Some(es[0]) else First(es[1..], k)
  }

  /** `entry(k).or_insert(...)` on a map ordered by key, kept as its sorted list of entries. */
  function OrInsert<K(==,!new), R>(m: seq<Entry<K, R>>, e: Entry<K, R>, lt: (K, K) -> bool): seq<Entry<K, R>> {
    if m == [] || lt(e.key, m[0].key) then [e] + m
    else if m[0].key == e.key then m
    else [m[0]] + OrInsert(m[1..], e, lt)
  }

  function OrInsertAll<K(==,!new), R>(es: seq<Entry<K, R>>, lt: (K, K) -> bool): seq<Entry<K, R>> {
    if es == [] then [] else OrInsert(OrInsertAll(es[..|es| - 1], lt), es[|es| - 1], lt)
  }

  function Merged<K(==,!new), R>(s: seq<Source>, c: Component<K, R>): seq<Entry<K, R>> {
    OrInsertAll(Entries(StableSort(s), c), c.lt)
  }

  function RowsOf<K(!new), R>(m: seq<Entry<K, R>>): (r: seq<R>)
    ensures |r| == |m|
  {
    seq(|m|, i requires 0 <= i < |m| => m[i].row)
  }

  ghost predicate SortedByKey<K(!new), R>(m: seq<Entry<K, R>>, lt: (K, K) -> bool) {
    forall i, j :: 0 <= i < j < |m| ==> lt(m[i].key, m[j].key)
  }

  // ---- the loops refine the lookup ----

  lemma {:induction false} OrInsertKeeps<K(!new), R>(m: seq<Entry<K, R>>, e: Entry<K, R>, lt: (K, K) -> bool, k: K)
    requires StrictOrder(lt) && SortedByKey(m, lt)
    ensures SortedByKey(OrInsert(m, e, lt), lt)
    ensures forall x :: x in OrInsert(m, e, lt) ==> x in m || x == e
    ensures First(OrInsert(m, e, lt), k) == if First(m, k).Some? || e.key != k then First(m, k) else Some(e)
  {
    if m == [] || lt(e.key, m[0].key) {
      assert ([e] + m)[1..] == m;
      if e.key == k { FirstMissing(m, k); }
    } else if m[0].key != e.key {
      OrInsertKeeps(m[1..], e, lt, k);
      var r := OrInsert(m[1..], e, lt);
      assert ([m[0]] + r)[1..] == r;
      forall j | 0 <= j < |r| ensures lt(m[0].key, r[j].key) { assert r[j] in r; }
    }
  }

  lemma {:induction false} FirstMissing<K, R>(m: seq<Entry<K, R>>, k: K)
    requires forall i :: 0 <= i < |m| ==> m[i].key != k
    ensures First(m, k) == None
  {
    if m != [] { FirstMissing(m[1..], k); }
  }

  lemma {:induction false} FirstOfConcat<K, R>(a: seq<Entry<K, R>>, b: seq<Entry<K, R>>, k: K)
    ensures First(a + b, k) == if First(a, k).Some? then First(a, k) else First(b, k)
  {
    if a == [] { assert a + b == b; } else { assert (a + b)[1..] == a[1..] + b; FirstOfConcat(a[1..], b, k); }
  }

  lemma {:induction false} OrInsertAllKeepsFirst<K(!new), R>(es: seq<Entry<K, R>>, lt: (K, K) -> bool, k: K)
    requires StrictOrder(lt)
    ensures SortedByKey(OrInsertAll(es, lt), lt)
    ensures First(OrInsertAll(es, lt), k) == First(es, k)
  {
    if es != [] {
      var front, last := es[..|es| - 1], es[|es| - 1];
      OrInsertAllKeepsFirst(front, lt, k);
      OrInsertKeeps(OrInsertAll(front, lt), last, lt, k);
      assert es == front + [last];
      FirstOfConcat(front, [last], k);
    }
  }

  lemma {:induction false} FirstRowEntry<K(!new), R>(rows: seq<R>, file: string, c: Component<K, R>, k: K)
    ensures First(RowEntries(rows, file, c), k) ==
      match Find(rows, c.key, k) { case Some(row) => Some(Entry(k, row, file)) case None => None }
  {
    if rows != [] {
      assert RowEntries(rows, file, c)[1..] == RowEntries(rows[1..], file, c);
      FirstRowEntry(rows[1..], file, c, k);
    }
  }

  /** The first source of a list that defines `k`. */
  function FirstSource<K(==,!new), R>(s: seq<Source>, c: Component<K, R>, k: K): Option<Source> {
    if s == [] then None
    else
      var front := FirstSource(s[..|s| - 1], c, k);
      if front.Some? then front else if Defines(s[|s| - 1], c, k) then Some(s[|s| - 1]) else None
  }

  /** What a source's file and first row for `k` make an entry. */
  function EntryFrom<K(==,!new), R>(x: Option<Source>, c: Component<K, R>, k: K): Option<Entry<K, R>>
    requires x.Some? ==> Defines(x.value, c, k)
  {
    if x.None? then None else Some(Entry(k, Find(c.rowsOf(x.value.sw), c.key, k).value, x.value.file))
  }

  lemma {:induction false} FirstOfEntries<K(!new), R>(s: seq<Source>, c: Component<K, R>, k: K)
    ensures FirstSource(s, c, k).Some? ==> Defines(FirstSource(s, c, k).value, c, k) && FirstSource(s, c, k).value in s
    ensures First(Entries(s, c), k) == EntryFrom(FirstSource(s, c, k), c, k)
  {
    if s != [] {
      FirstOfEntries(s[..|s| - 1], c, k);
      FirstRowEntry(c.rowsOf(s[|s| - 1].sw), s[|s| - 1].file, c, k);
      FirstOfConcat(Entries(s[..|s| - 1], c), RowEntries(c.rowsOf(s[|s| - 1].sw), s[|s| - 1].file, c), k);
    }
  }

  lemma {:induction false} FirstAfterInsert<K(!new), R>(t: seq<Source>, x: Source, c: Component<K, R>, k: K)
    requires SortedByPriority(t)
    ensures var best := FirstSource(t, c, k);
      FirstSource(InsertStable(t, x), c, k) ==
        if Defines(x, c, k) && (best.None? || x.priority < best.value.priority) then Some(x) else best
  {
    FirstOfEntries(t, c, k);
    if t == [] || t[|t| - 1].priority <= x.priority {
      assert (t + [x])[..|t|] == t;
    } else {
      var front, last := t[..|t| - 1], t[|t| - 1];
      FirstAfterInsert(front, x, c, k);
      var r := InsertStable(front, x);
      assert (r + [last])[..|r|] == r;
    }
  }

  lemma {:induction false} FirstSortedIsWinner<K(!new), R>(s: seq<Source>, c: Component<K, R>, k: K)
    ensures FirstSource(StableSort(s), c, k) == Winner(s, c, k)
  {
    if s != [] {
      FirstSortedIsWinner(s[..|s| - 1], c, k);
      StableSortSorts(s[..|s| - 1]);
      FirstAfterInsert(StableSort(s[..|s| - 1]), s[|s| - 1], c, k);
    }
  }

  /** The row for `k`, and its file, looked up in the sources as they came. */
  function Lookup<K(==,!new), R>(s: seq<Source>, c: Component<K, R>, k: K): Option<Entry<K, R>> {
    WinnerDefines(s, c, k);
    EntryFrom(Winner(s, c, k), c, k)
  }

  /** The merged rows are strictly sorted, and the row and file for each key are those of
      the lookup over the sources as they came. */
  lemma MergeRefinesLookup<K(!new), R>(s: seq<Source>, c: Component<K, R>, k: K)
    requires StrictOrder(c.lt)
    ensures SortedByKey(Merged(s, c), c.lt)
    ensures First(Merged(s, c), k) == Lookup(s, c, k)
  {
    OrInsertAllKeepsFirst(Entries(StableSort(s), c), c.lt, k);
    FirstOfEntries(StableSort(s), c, k);
    FirstSortedIsWinner(s, c, k);
  }

  // ---- sorted lists with the same rows are the same ----

  lemma {:induction false} FirstFinds<K(!new), R>(m: seq<Entry<K, R>>, lt: (K, K) -> bool, i: nat)
    requires StrictOrder(lt) && SortedByKey(m, lt) && i < |m|
    ensures First(m, m[i].key) == Some(m[i])
  {
    if i > 0 {
      assert lt(m[0].key, m[i].key);
      FirstFinds(m[1..], lt, i - 1);
    }
  }

  lemma {:induction false} FirstIsIn<K, R>(m: seq<Entry<K, R>>, k: K) returns (i: nat)
    ensures First(m, k).Some? ==> i < |m| && m[i] == First(m, k).value && m[i].key == k
    ensures First(m, k).None? ==> forall j :: 0 <= j < |m| ==> m[j].key != k
  {
    if m == [] || m[0].key == k {
      i := 0;
    } else {
      i := FirstIsIn(m[1..], k);
      assert forall j :: 0 < j < |m| ==> m[j] == m[1..][j - 1];
      i := i + 1;
    }
  }

  /** Key and row, without the file. */
  function RowAt<K(==), R>(m: seq<Entry<K, R>>, k: K): Option<R> {
    match First(m, k)
    case Some(e) => Some(e.row)
    case None => None
  }

  lemma {:induction false} SameRows<K(!new), R>(a: seq<Entry<K, R>>, b: seq<Entry<K, R>>, lt: (K, K) -> bool)
    requires StrictOrder(lt) && SortedByKey(a, lt) && SortedByKey(b, lt)
    requires forall k :: RowAt(a, k) == RowAt(b, k)
    ensures RowsOf(a) == RowsOf(b)
  {
    if a != [] { assert RowAt(a, a[0].key) == RowAt(b, a[0].key); }
    if b != [] { assert RowAt(a, b[0].key) == RowAt(b, b[0].key); }
    if a != [] && b != [] {
      SameHead(a, b, lt);
      forall k ensures RowAt(a[1..], k) == RowAt(b[1..], k) {
        assert RowAt(a, k) == RowAt(b, k);
        if k == a[0].key {
          FirstMissing(a[1..], k);
          FirstMissing(b[1..], k);
        }
      }
      SameRows(a[1..], b[1..], lt);
      assert RowsOf(a) == [a[0].row] + RowsOf(a[1..]);
      assert RowsOf(b) == [b[0].row] + RowsOf(b[1..]);
    }
  }

  lemma SameHead<K(!new), R>(a: seq<Entry<K, R>>, b: seq<Entry<K, R>>, lt: (K, K) -> bool)
    requires StrictOrder(lt) && SortedByKey(a, lt) && SortedByKey(b, lt) && a != [] && b != []
    requires forall k :: RowAt(a, k) == RowAt(b, k)
    ensures a[0].key == b[0].key && a[0].row == b[0].row
  {
    assert RowAt(a, a[0].key) == RowAt(b, a[0].key) && RowAt(a, b[0].key) == RowAt(b, b[0].key);
    var i := FirstIsIn(b, a[0].key);
    var j := FirstIsIn(a, b[0].key);
  }

  // ---- a source that only repeats what is there ----

  lemma {:induction false} WinnerWithInsertion<K(!new), R>(
      a: seq<Source>, x: Source, b: seq<Source>, c: Component<K, R>, k: K)
    ensures Winner(a + [x] + b, c, k) == Winner(a + b, c, k) ||
      (Defines(x, c, k) && Winner(a + [x] + b, c, k) == Some(x))
    ensures Winner(a + [x] + b, c, k).None? ==> Winner(a + b, c, k).None?
  {
    if b == [] {
      assert a + [x] + b == a + [x] && a + b == a && (a + [x])[..|a|] == a;
    } else {
      var front, last := b[..|b| - 1], b[|b| - 1];
      WinnerWithInsertion(a, x, front, c, k);
      assert a + [x] + b == (a + [x] + front) + [last] && a + b == (a + front) + [last];
      WinnerOfSnoc(a + front, last, c, k);
      WinnerOfSnoc(a + [x] + front, last, c, k);
      PriorityWithInsertion(a, x, front, c, k);
    }
  }

  lemma WinnerOfSnoc<K(!new), R>(front: seq<Source>, last: Source, c: Component<K, R>, k: K)
    ensures var best := Winner(front, c, k);
      Winner(front + [last], c, k) ==
        if Defines(last, c, k) && (best.None? || last.priority < best.value.priority) then Some(last) else best
  {
    assert (front + [last])[..|front|] == front;
  }

  /** Inserting a source never makes the winner's priority worse. */
  lemma PriorityWithInsertion<K(!new), R>(a: seq<Source>, x: Source, b: seq<Source>, c: Component<K, R>, k: K)
    ensures Winner(a + b, c, k).Some? ==>
      Winner(a + [x] + b, c, k).Some? && Winner(a + [x] + b, c, k).value.priority <= Winner(a + b, c, k).value.priority
  {
    WinnerDefines(a + b, c, k);
    WinnerDefines(a + [x] + b, c, k);
  }

  /** A source whose rows all equal the merged ones changes no merged row, whatever its
      priority and wherever it stands. */
  lemma RedundantSource<K(!new), R>(a: seq<Source>, x: Source, b: seq<Source>, c: Component<K, R>)
    requires StrictOrder(c.lt)
    requires forall i :: 0 <= i < |c.rowsOf(x.sw)| ==>
      RowAt(Merged(a + b, c), c.key(c.rowsOf(x.sw)[i])) == Some(c.rowsOf(x.sw)[i])
    ensures RowsOf(Merged(a + [x] + b, c)) == RowsOf(Merged(a + b, c))
  {
    forall k ensures RowAt(Merged(a + [x] + b, c), k) == RowAt(Merged(a + b, c), k) {
      MergeRefinesLookup(a + b, c, k);
      MergeRefinesLookup(a + [x] + b, c, k);
      WinnerWithInsertion(a, x, b, c, k);
      FirstRowIsARow(c.rowsOf(x.sw), c, k);
    }
    SortedMerge(a + b, c);
    SortedMerge(a + [x] + b, c);
    SameRows(Merged(a + [x] + b, c), Merged(a + b, c), c.lt);
  }

  lemma SortedMerge<K(!new), R>(s: seq<Source>, c: Component<K, R>)
    requires StrictOrder(c.lt)
    ensures SortedByKey(Merged(s, c), c.lt)
  {
    var es := Entries(StableSort(s), c);
    if es != [] { OrInsertAllKeepsFirst(es, c.lt, es[0].key); }
  }

  lemma {:induction false} FirstRowIsARow<K(!new), R>(rows: seq<R>, c: Component<K, R>, k: K)
    ensures Find(rows, c.key, k).Some? ==>
      exists i :: 0 <= i < |rows| && rows[i] == Find(rows, c.key, k).value && c.key(rows[i]) == k
    ensures Find(rows, c.key, k).None? ==> forall i :: 0 <= i < |rows| ==> c.key(rows[i]) != k
  {
    if rows != [] && c.key(rows[0]) != k {
      FirstRowIsARow(rows[1..], c, k);
      assert forall i :: 0 < i < |rows| ==> rows[i] == rows[1..][i - 1];
    }
  }

  // ---- entries stand under their own key ----

  lemma {:induction false} EntriesKeyed<K(!new), R>(s: seq<Source>, c: Component<K, R>)
    ensures forall e :: e in Entries(s, c) ==> e.key == c.key(e.row)
  {
    if s != [] { EntriesKeyed(s[..|s| - 1], c); }
  }

  lemma {:induction false} OrInsertAllIn<K(!new), R>(es: seq<Entry<K, R>>, lt: (K, K) -> bool)
    requires StrictOrder(lt)
    ensures forall e :: e in OrInsertAll(es, lt) ==> e in es
  {
    if es != [] {
      var front, last := es[..|es| - 1], es[|es| - 1];
      OrInsertAllIn(front, lt);
      OrInsertAllKeepsFirst(front, lt, last.key);
      OrInsertKeeps(OrInsertAll(front, lt), last, lt, last.key);
    }
  }

  /** A merged row is what its own key looks up. */
  lemma RowIsThere<K(!new), R>(s: seq<Source>, c: Component<K, R>, row: R)
    requires StrictOrder(c.lt) && row in RowsOf(Merged(s, c))
    ensures RowAt(Merged(s, c), c.key(row)) == Some(row)
  {
    var m := Merged(s, c);
    var i :| 0 <= i < |m| && m[i].row == row;
    SortedMerge(s, c);
    OrInsertAllIn(Entries(StableSort(s), c), c.lt);
    EntriesKeyed(StableSort(s), c);
    assert m[i] in m;
    FirstFinds(m, c.lt, i);
  }
}
