/** Small shared vocabulary: optional values and outcomes of fallible operations. */
module Basics {
  datatype Option<+T> = None | Some(value: T)

  datatype Result<+T> = Ok(value: T) | Err

  /** `u16` in the source. */
  type u16 = x: int | 0 <= x < 0x1_0000

  const U32_MAX: nat := 0xFFFF_FFFF

  /** One list after the other, if there are both. */
  function Joined<T>(x: Result<seq<T>>, y: Result<seq<T>>): Result<seq<T>> {
    if x.Ok? && y.Ok? then Ok(x.value + y.value) else Err
  }

  lemma JoinedAssociates<T>(x: Result<seq<T>>, y: Result<seq<T>>, z: Result<seq<T>>)
    ensures Joined(Joined(x, y), z) == Joined(x, Joined(y, z))
  {
    if x.Ok? && y.Ok? && z.Ok? { assert (x.value + y.value) + z.value == x.value + (y.value + z.value); }
  }

  /** What `f` gives for each row, one after the other, if it gives something for each. */
  function Gathered<R, S>(rows: seq<R>, f: R -> Result<seq<S>>): Result<seq<S>> {
    if rows == [] then Ok([]) else Joined(Gathered(rows[..|rows| - 1], f), f(rows[|rows| - 1]))
  }

  lemma GatheredOfSnoc<R, S>(front: seq<R>, last: R, f: R -> Result<seq<S>>)
    ensures Gathered(front + [last], f) == Joined(Gathered(front, f), f(last))
  {
    assert (front + [last])[..|front|] == front;
  }

  lemma {:induction false} GatheredOfConcat<R, S>(a: seq<R>, b: seq<R>, f: R -> Result<seq<S>>)
    ensures Gathered(a + b, f) == Joined(Gathered(a, f), Gathered(b, f))
  {
    if b == [] {
      assert a + b == a;
      if Gathered(a, f).Ok? { assert Gathered(a, f).value + [] == Gathered(a, f).value; }
    } else {
      var front, last := b[..|b| - 1], b[|b| - 1];
      assert (a + b)[..|a + b| - 1] == a + front;
      GatheredOfConcat(a, front, f);
      JoinedAssociates(Gathered(a, f), Gathered(front, f), f(last));
    }
  }

  lemma GatheredOfOne<R, S>(row: R, f: R -> Result<seq<S>>)
    ensures Gathered([row], f) == f(row)
  {
    assert [row][..0] == [] && Gathered([row][..0], f) == Ok([]);
    if f(row).Ok? { assert [] + f(row).value == f(row).value; }
  }

  /** There is all of it exactly when there is something for each row; then it is that. */
  lemma {:induction false} GatheredHas<R, S>(rows: seq<R>, f: R -> Result<seq<S>>)
    ensures Gathered(rows, f).Ok? <==> forall r :: r in rows ==> f(r).Ok?
    ensures Gathered(rows, f).Ok? ==>
      forall x :: x in Gathered(rows, f).value <==> exists r :: r in rows && x in f(r).value
  {
    if rows != [] {
      GatheredHas(rows[..|rows| - 1], f);
      assert rows == rows[..|rows| - 1] + [rows[|rows| - 1]];
    }
  }

  lemma GatheredFails<R, S>(rows: seq<R>, f: R -> Result<seq<S>>, k: nat)
    requires k < |rows| && f(rows[k]).Err?
    ensures Gathered(rows, f).Err?
  {
    GatheredHas(rows, f);
  }

  /** One more row in a loop over them. */
  lemma GatheredOneMore<R, S>(rows: seq<R>, f: R -> Result<seq<S>>, k: nat)
    requires k < |rows|
    ensures Gathered(rows[..k + 1], f) == Joined(Gathered(rows[..k], f), f(rows[k]))
  {
    assert rows[..k + 1][..k] == rows[..k];
  }

  /** The first row with a key. */
  function Find<K(==), R>(rows: seq<R>, key: R -> K, k: K): Option<R> {
    if rows == [] then None else if key(rows[0]) == k then Some(rows[0]) else Find(rows[1..], key, k)
  }

  lemma {:induction false} FindIs<K, R>(rows: seq<R>, key: R -> K, k: K, at: nat)
    requires at <= |rows| && forall i :: 0 <= i < at ==> key(rows[i]) != k
    requires at < |rows| ==> key(rows[at]) == k
    ensures Find(rows, key, k) == if at < |rows| then Some(rows[at]) else None
  {
    if at > 0 {
      FindIs(rows[1..], key, k, at - 1);
    }
  }

  /** The last row with a key. */
  function FindLast<K(==), R>(rows: seq<R>, key: R -> K, k: K): (r: Option<R>)
    ensures r.Some? ==> r.value in rows && key(r.value) == k
    ensures r.None? ==> forall x :: x in rows ==> key(x) != k
  {
    if rows == [] then None
    else if key(rows[|rows| - 1]) == k then Some(rows[|rows| - 1])
    else
      assert rows == rows[..|rows| - 1] + [rows[|rows| - 1]];
      FindLast(rows[..|rows| - 1], key, k)
  }

  /** ASCII letters in lower case. */
  function LowerCase(s: string): (r: string)
    ensures |r| == |s|
  {
    seq(|s|, i requires 0 <= i < |s| => if 'A' <= s[i] <= 'Z' then s[i] + 32 as char else s[i])
  }

  function InsertBy<T>(sorted: seq<T>, x: T, priority: T -> u16): seq<T> {
    if sorted == [] || priority(sorted[|sorted| - 1]) <= priority(x) then sorted + [x]
    else InsertBy(sorted[..|sorted| - 1], x, priority) + [sorted[|sorted| - 1]]
  }

  /** `sort_by_key` on a priority, taken as given: the stable sort. */
  function SortBy<T>(s: seq<T>, priority: T -> u16): seq<T> {
    if s == [] then [] else InsertBy(SortBy(s[..|s| - 1], priority), s[|s| - 1], priority)
  }

  lemma SortOne<T>(x: T, priority: T -> u16)
    ensures SortBy([x], priority) == [x]
  {
    assert [x][..0] == [];
    assert SortBy([x][..0], priority) == [];
    assert InsertBy([], x, priority) == [] + [x] == [x];
  }

  /** Without the line ends at its end. */
  function TrimLineEnds(s: string): (r: string)
    ensures r <= s
  {
    if s != [] && (s[|s| - 1] == '\r' || s[|s| - 1] == '\n') then TrimLineEnds(s[..|s| - 1]) else s
  }
}
