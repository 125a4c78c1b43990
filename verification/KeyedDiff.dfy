/** Comparing two lists of rows by key, as the diff does for VLANs, mirrors, communities and
    trap receivers (switch-configurator/src/diff/mod.rs). The key sets are walked in any order. */
module KeyedDiff {
  import opened Basics
  import RowMerge

  datatype Changes<K, R> = Changes(add: seq<R>, remove: seq<K>, update: seq<R>)
  {
    predicate Nothing() { add == [] && remove == [] && update == [] }
  }

  /** A hash map collected from rows by key holds the last row of each. */
  ghost predicate IsMap<K(!new), R>(m: map<K, R>, rows: seq<R>, key: R -> K) {
    forall k :: if k in m then FindLast(rows, key, k) == Some(m[k]) else FindLast(rows, key, k) == None
  }

  method Collect<K(==,!new), R>(rows: seq<R>, key: R -> K) returns (m: map<K, R>)
    ensures IsMap(m, rows, key)
  {
    m := map[];
    for i := 0 to |rows|
      invariant IsMap(m, rows[..i], key)
    {
      assert rows[..i + 1][..i] == rows[..i];
      m := m[key(rows[i]) := rows[i]];
    }
    assert rows[..|rows|] == rows;
  }

  /** The key of a row that is one. */
  function Itself<K>(): K -> K { (k: K) => k }

  /** No key twice. */
  ghost predicate EachOnce<K, R>(rows: seq<R>, key: R -> K) {
    forall i, j :: 0 <= i < j < |rows| ==> key(rows[i]) != key(rows[j])
  }

  ghost predicate IsNew<K, R>(current: seq<R>, desired: seq<R>, key: R -> K, r: R) {
    FindLast(desired, key, key(r)) == Some(r) && FindLast(current, key, key(r)).None?
  }

  ghost predicate IsGone<K, R>(current: seq<R>, desired: seq<R>, key: R -> K, fixed: K -> bool, k: K) {
    FindLast(current, key, k).Some? && FindLast(desired, key, k).None? && !fixed(k)
  }

  ghost predicate IsChanged<K, R>(current: seq<R>, desired: seq<R>, key: R -> K, same: (R, R) -> bool, r: R) {
    var was := FindLast(current, key, key(r));
    FindLast(desired, key, key(r)) == Some(r) && was.Some? && !same(was.value, r)
  }

  ghost predicate IsDiff<K(!new), R(!new)>(
    current: seq<R>, desired: seq<R>, key: R -> K, same: (R, R) -> bool, fixed: K -> bool, d: Changes<K, R>)
  {
    && EachOnce(d.add, key) && EachOnce(d.remove, Itself<K>()) && EachOnce(d.update, key)
    && (forall r :: r in d.add <==> IsNew(current, desired, key, r))
    && (forall k :: k in d.remove <==> IsGone(current, desired, key, fixed, k))
    && (forall r :: r in d.update <==> IsChanged(current, desired, key, same, r))
  }

  // ---- the loops over the key sets ----

  method RowsAt<K(==,!new), R(!new)>(m: map<K, R>, ks: set<K>, key: R -> K) returns (rows: seq<R>)
    requires ks <= m.Keys && forall k :: k in m ==> key(m[k]) == k
    ensures EachOnce(rows, key)
    ensures forall r :: r in rows <==> key(r) in ks && m[key(r)] == r
  {
    rows := [];
    var rest := ks;
    while rest != {}
      invariant rest <= ks && EachOnce(rows, key)
      invariant forall r :: r in rows <==> key(r) in ks - rest && m[key(r)] == r
      decreases rest
    {
      var k :| k in rest;
      rows := rows + [m[k]];
      rest := rest - {k};
    }
  }

  method KeysWithout<K(==,!new)>(ks: set<K>, fixed: K -> bool) returns (keys: seq<K>)
    ensures EachOnce(keys, Itself<K>())
    ensures forall k :: k in keys <==> k in ks && !fixed(k)
  {
    keys := [];
    var rest := ks;
    while rest != {}
      invariant rest <= ks && EachOnce(keys, Itself<K>())
      invariant forall k :: k in keys <==> k in ks - rest && !fixed(k)
      decreases rest
    {
      var k :| k in rest;
      if !fixed(k) { keys := keys + [k]; }
      rest := rest - {k};
    }
  }

  method ChangedRows<K(==,!new), R(!new)>(current: map<K, R>, desired: map<K, R>, key: R -> K, same: (R, R) -> bool)
    returns (rows: seq<R>)
    requires forall k :: k in desired ==> key(desired[k]) == k
    ensures EachOnce(rows, key)
    ensures forall r :: r in rows <==>
      key(r) in current.Keys * desired.Keys && desired[key(r)] == r && !same(current[key(r)], r)
  {
    rows := [];
    var both := current.Keys * desired.Keys;
    var rest := both;
    while rest != {}
      invariant rest <= both && EachOnce(rows, key)
      invariant forall r :: r in rows <==> key(r) in both - rest && desired[key(r)] == r && !same(current[key(r)], r)
      decreases rest
    {
      var k :| k in rest;
      if !same(current[k], desired[k]) { rows := rows + [desired[k]]; }
      rest := rest - {k};
    }
  }

  method DiffRows<K(==,!new), R(!new)>(
    current: seq<R>, desired: seq<R>, key: R -> K, same: (R, R) -> bool, fixed: K -> bool)
    returns (d: Changes<K, R>)
    ensures IsDiff(current, desired, key, same, fixed, d)
  {
    var cur := Collect(current, key);
    var des := Collect(desired, key);
    var add := RowsAt(des, des.Keys - cur.Keys, key);
    var remove := KeysWithout(cur.Keys - des.Keys, fixed);
    var update := ChangedRows(cur, des, key, same);
    d := Changes(add, remove, update);
  }

  // ---- in order of key ----

  ghost predicate Ascends<K, R>(rows: seq<R>, key: R -> K, lt: (K, K) -> bool) {
    forall i, j :: 0 <= i < j < |rows| ==> lt(key(rows[i]), key(rows[j]))
  }

  function InsertByKey<K, R>(rows: seq<R>, x: R, key: R -> K, lt: (K, K) -> bool): seq<R> {
    if rows == [] || lt(key(x), key(rows[0])) then [x] + rows else [rows[0]] + InsertByKey(rows[1..], x, key, lt)
  }

  /** `sort_by` on a key, taken as given. */
  function SortByKey<K, R>(rows: seq<R>, key: R -> K, lt: (K, K) -> bool): seq<R> {
    if rows == [] then [] else InsertByKey(SortByKey(rows[1..], key, lt), rows[0], key, lt)
  }

  lemma {:induction false} InsertAscends<K(!new), R(!new)>(rows: seq<R>, x: R, key: R -> K, lt: (K, K) -> bool)
    requires RowMerge.StrictOrder(lt) && Ascends(rows, key, lt) && forall r :: r in rows ==> key(r) != key(x)
    ensures Ascends(InsertByKey(rows, x, key, lt), key, lt)
    ensures forall r :: r in InsertByKey(rows, x, key, lt) <==> r in rows || r == x
  {
    if rows != [] && !lt(key(x), key(rows[0])) {
      assert rows == [rows[0]] + rows[1..];
      InsertAscends(rows[1..], x, key, lt);
      var r := InsertByKey(rows[1..], x, key, lt);
      forall j | 0 <= j < |r| ensures lt(key(rows[0]), key(r[j])) { assert r[j] in r; }
    }
  }

  /** Sorting rows of distinct keys puts them in order and keeps each. */
  lemma {:induction false} SortAscends<K(!new), R(!new)>(rows: seq<R>, key: R -> K, lt: (K, K) -> bool)
    requires RowMerge.StrictOrder(lt) && EachOnce(rows, key)
    ensures Ascends(SortByKey(rows, key, lt), key, lt) && EachOnce(SortByKey(rows, key, lt), key)
    ensures forall r :: r in SortByKey(rows, key, lt) <==> r in rows
  {
    if rows != [] {
      assert rows == [rows[0]] + rows[1..];
      SortAscends(rows[1..], key, lt);
      var sorted := SortByKey(rows[1..], key, lt);
      forall r | r in sorted ensures key(r) != key(rows[0]) {
        var i :| 0 <= i < |rows| - 1 && rows[1..][i] == r;
        assert rows[i + 1] == r;
      }
      InsertAscends(sorted, rows[0], key, lt);
    }
  }

  // ---- what the differences are for ----

  ghost predicate AgreesAt<K(!new), R>(
    current: seq<R>, desired: seq<R>, key: R -> K, same: (R, R) -> bool, fixed: K -> bool, k: K)
  {
    var found, wanted := FindLast(current, key, k), FindLast(desired, key, k);
    if wanted.Some? then found.Some? && same(found.value, wanted.value) else found.None? || fixed(k)
  }

  /** Every desired row is there, and nothing else that could be removed. */
  ghost predicate Agrees<K(!new), R>(
    current: seq<R>, desired: seq<R>, key: R -> K, same: (R, R) -> bool, fixed: K -> bool)
  {
    forall k :: AgreesAt(current, desired, key, same, fixed, k)
  }

  lemma NothingExactly<K(!new), R(!new)>(
    current: seq<R>, desired: seq<R>, key: R -> K, same: (R, R) -> bool, fixed: K -> bool, d: Changes<K, R>)
    requires IsDiff(current, desired, key, same, fixed, d)
    ensures d.Nothing() <==> Agrees(current, desired, key, same, fixed)
  {
    if d.add != [] {
      assert IsNew(current, desired, key, d.add[0]);
      assert !AgreesAt(current, desired, key, same, fixed, key(d.add[0]));
    } else if d.remove != [] {
      assert IsGone(current, desired, key, fixed, d.remove[0]);
      assert !AgreesAt(current, desired, key, same, fixed, d.remove[0]);
    } else if d.update != [] {
      assert IsChanged(current, desired, key, same, d.update[0]);
      assert !AgreesAt(current, desired, key, same, fixed, key(d.update[0]));
    } else {
      forall k ensures AgreesAt(current, desired, key, same, fixed, k) {
        var wanted := FindLast(desired, key, k);
        assert wanted.None? ==>
          IsGone(current, desired, key, fixed, k) || AgreesAt(current, desired, key, same, fixed, k);
        assert wanted.Some? ==>
          !IsNew(current, desired, key, wanted.value) && !IsChanged(current, desired, key, same, wanted.value);
      }
    }
  }

  /** The row of a key after applying: a row that is written is shown as `shown` says, one
      that is removed is gone, and the rest stays. */
  function RowAfter<K(==), R>(
    current: seq<R>, d: Changes<K, R>, key: R -> K, shown: (Option<R>, R) -> Option<R>, k: K): Option<R>
  {
    var written := FindLast(d.add + d.update, key, k);
    if written.Some? then shown(FindLast(current, key, k), written.value)
    else if k in d.remove then None
    else FindLast(current, key, k)
  }

  ghost predicate Obeys<K(!new), R>(
    current: seq<R>, d: Changes<K, R>, after: seq<R>, key: R -> K, shown: (Option<R>, R) -> Option<R>)
  {
    forall k :: FindLast(after, key, k) == RowAfter(current, d, key, shown, k)
  }

  ghost predicate IsWritten<K, R>(current: seq<R>, desired: seq<R>, key: R -> K, same: (R, R) -> bool, r: R) {
    IsNew(current, desired, key, r) || IsChanged(current, desired, key, same, r)
  }

  ghost predicate ShowsAs<R>(was: Option<R>, r: R, same: (R, R) -> bool, shown: (Option<R>, R) -> Option<R>) {
    shown(was, r).Some? && same(shown(was, r).value, r)
  }

  /** What is read afterwards agrees exactly when every row that is written shows as itself. */
  lemma ObeyedAgreesExactly<K(!new), R(!new)>(
    current: seq<R>, desired: seq<R>, key: R -> K, same: (R, R) -> bool, fixed: K -> bool,
    d: Changes<K, R>, after: seq<R>, shown: (Option<R>, R) -> Option<R>)
    requires IsDiff(current, desired, key, same, fixed, d) && Obeys(current, d, after, key, shown)
    ensures Agrees(after, desired, key, same, fixed) <==>
      forall r :: IsWritten(current, desired, key, same, r) ==>
        ShowsAs(FindLast(current, key, key(r)), r, same, shown)
  {
    forall k
      ensures AgreesAt(after, desired, key, same, fixed, k) <==>
        forall r :: IsWritten(current, desired, key, same, r) && key(r) == k ==>
          ShowsAs(FindLast(current, key, k), r, same, shown)
    {
      var was, wanted, written :=
        FindLast(current, key, k), FindLast(desired, key, k), FindLast(d.add + d.update, key, k);
      assert written.Some? ==> IsWritten(current, desired, key, same, written.value);
      assert k in d.remove <==> IsGone(current, desired, key, fixed, k);
      if wanted.Some? {
        var r := wanted.value;
        assert was.None? || !same(was.value, r) ==> IsWritten(current, desired, key, same, r);
        assert IsWritten(current, desired, key, same, r) ==> r in d.add + d.update;
      }
    }
    if Agrees(after, desired, key, same, fixed) {
      forall r | IsWritten(current, desired, key, same, r)
        ensures ShowsAs(FindLast(current, key, key(r)), r, same, shown)
      {
        assert AgreesAt(after, desired, key, same, fixed, key(r));
      }
    } else {
      var k :| !AgreesAt(after, desired, key, same, fixed, k);
      var r :| IsWritten(current, desired, key, same, r) && key(r) == k &&
        !ShowsAs(FindLast(current, key, k), r, same, shown);
    }
  }
}
