/** What a PATCH does to the ports of a stored switch
    (switch-configurator/src/api/handlers.rs, `patch_switch_config`). */
module PatchTheorems {
  import opened Basics
  import opened Models
  import opened VlanNames
  import opened PortRange
  import opened Validation
  import opened Acceptance
  import opened Store

  // ---- rows that are not changed ----

  lemma {:induction false} UpsertAllLeaves<K, R>(rows: seq<R>, key: R -> K, changes: seq<R>, i: nat)
    requires i < |rows| && FindLast(changes, key, key(rows[i])).None?
    ensures i < |UpsertAll(rows, key, changes)| && UpsertAll(rows, key, changes)[i] == rows[i]
  {
    if changes != [] {
      UpsertAllLeaves(rows, key, changes[..|changes| - 1], i);
      UpsertLeaves(UpsertAll(rows, key, changes[..|changes| - 1]), key, changes[|changes| - 1], i);
    }
  }

  lemma {:induction false} UpsertLeaves<K, R>(rows: seq<R>, key: R -> K, row: R, i: nat)
    requires i < |rows| && key(rows[i]) != key(row)
    ensures i < |Upsert(rows, key, row)| && Upsert(rows, key, row)[i] == rows[i]
  {
    if key(rows[0]) != key(row) && i > 0 { UpsertLeaves(rows[1..], key, row, i - 1); }
  }

  /** Validation finishes every port with a plain id among plain ones in its place. */
  lemma ValidateFinishes(env: Secrets, sw: SwitchConfig, n: nat, i: nat)
    requires Validate(env, sw).Ok? && i < n <= |sw.ports| && forall j :: 0 <= j < n ==> Plain(sw.ports[j].portId)
    ensures i < |Validate(env, sw).value.ports| && sw.model.Some? && ResolvePort(sw.vlans, sw.ports[i], false).Ok?
    ensures Validate(env, sw).value.ports[i] == Finish(sw, sw.ports[i])
  {
    var head, tail := sw.ports[..n], sw.ports[n..];
    assert sw.ports == head + tail;
    GatheredOfConcat(head, tail, COPIES_OF);
    PlainPortsStay(head);
    var sw1 := Expand(sw).value;
    assert sw1.ports[i] == sw.ports[i];
    var sw2 := sw1.(snmp := ResolveSnmp(env, sw1.snmp));
    var sw3 := Resolve(sw2, false).value;
    assert ResolvePort(sw2.vlans, sw2.ports[i], false).Ok?;
    CheckRefsCloses(sw3);
    KeepDefinedSame(sw3, sw, sw3.ports[i].taggedVlans);
  }

  lemma SettledPortIsFinished(env: Secrets, sw: SwitchConfig, request: SwitchRequest, i: nat)
    requires Settled(env, sw) && i < |sw.ports|
    ensures ResolvePort(Patched(sw, request).vlans, sw.ports[i], false).Ok? && Patched(sw, request).model.Some?
    ensures Finish(Patched(sw, request), sw.ports[i]) == sw.ports[i]
  {
    var p, patched := sw.ports[i], Patched(sw, request);
    assert p.Resolved() && PortRefsOk(sw, p, true);
    forall id | id in p.taggedVlans ensures Defined(patched, id) {
      assert Defined(sw, id);
      if id !in sw.model.value.ImplicitVlans() {
        var v :| v in sw.vlans && v.id == id;
        var j :| 0 <= j < |sw.vlans| && sw.vlans[j] == v;
        UpsertAllKeepsPlaces(sw.vlans, VLAN_ID, request.vlans, j);
        assert patched.vlans[j].id == id;
      }
    }
    KeepDefinedKeeps(patched, p.taggedVlans);
  }

  /** Exactly what a successful PATCH does to a port the switch already had: the last row
      of the request with literally that id decides; without one the port is as it was. */
  lemma PatchExistingPort(env: Secrets, sw: SwitchConfig, request: SwitchRequest, k: string)
    requires Settled(env, sw) && Validate(env, Patched(sw, request)).Ok? && HasPort(sw, k)
    ensures FindLast(request.ports, PORT_ID, k).None? ==>
      Find(Validate(env, Patched(sw, request)).value.ports, PORT_ID, k) == Find(sw.ports, PORT_ID, k)
    ensures FindLast(request.ports, PORT_ID, k).Some? ==>
      var patched, p := Patched(sw, request), FindLast(request.ports, PORT_ID, k).value;
      && patched.model.Some? && ResolvePort(patched.vlans, p, false).Ok?
      && Find(Validate(env, patched).value.ports, PORT_ID, k) == Some(Finish(patched, p))
  {
    var patched, r := Patched(sw, request), Validate(env, Patched(sw, request)).value;
    var at := FirstPort(sw, k);
    PatchedPortStays(env, sw, request, at);
    forall j | 0 <= j < at ensures r.ports[j].portId != k && patched.ports[j].portId != k {
      PatchedPortStays(env, sw, request, j);
    }
    FindIs(r.ports, PORT_ID, k, at);
    FindIs(sw.ports, PORT_ID, k, at);
    FindIs(patched.ports, PORT_ID, k, at);
    UpsertAllFinds(sw.ports, PORT_ID, request.ports, k);
    SettledPortIsFinished(env, sw, request, at);
  }

  /** A stored port keeps its place and id, through the upserts and the validation. */
  lemma PatchedPortStays(env: Secrets, sw: SwitchConfig, request: SwitchRequest, i: nat)
    requires Settled(env, sw) && Validate(env, Patched(sw, request)).Ok? && i < |sw.ports|
    ensures var patched, r := Patched(sw, request), Validate(env, Patched(sw, request)).value;
      && i < |patched.ports| && patched.ports[i].portId == sw.ports[i].portId
      && i < |r.ports| && r.ports[i].portId == sw.ports[i].portId
      && patched.model.Some? && ResolvePort(patched.vlans, patched.ports[i], false).Ok?
      && r.ports[i] == Finish(patched, patched.ports[i])
  {
    var patched, n := Patched(sw, request), |sw.ports|;
    UpsertAllKeepsPlaces(sw.ports, PORT_ID, request.ports, i);
    forall j | 0 <= j < n ensures j < |patched.ports| && patched.ports[j].portId == sw.ports[j].portId {
      UpsertAllKeepsPlaces(sw.ports, PORT_ID, request.ports, j);
    }
    ValidateFinishes(env, patched, n, i);
  }

  /** The same on the stored port: as it was, or what the request's row asks for. */
  lemma PatchedPort(env: Secrets, sw: SwitchConfig, request: SwitchRequest, k: string)
    requires Settled(env, sw) && Validate(env, Patched(sw, request)).Ok? && HasPort(sw, k)
    ensures var now, row := Validate(env, Patched(sw, request)).value, FindLast(request.ports, PORT_ID, k);
      var found := Find(now.ports, PORT_ID, k);
      if row.None? then found == Find(sw.ports, PORT_ID, k)
      else found.Some? && PortFinished(now.vlans, row.value, found.value)
  {
    var patched, row := Patched(sw, request), FindLast(request.ports, PORT_ID, k);
    PatchExistingPort(env, sw, request, k);
    ValidateExactly(env, patched);
    UnambiguousExactly(patched.vlans);
    if row.Some? { FinishedPort(patched, row.value); }
  }

  lemma {:induction false} FirstPort(sw: SwitchConfig, k: string) returns (at: nat)
    requires HasPort(sw, k)
    ensures at < |sw.ports| && sw.ports[at].portId == k && forall j :: 0 <= j < at ==> sw.ports[j].portId != k
  {
    at := 0;
    while at < |sw.ports| && sw.ports[at].portId != k
      invariant at <= |sw.ports| && forall j :: 0 <= j < at ==> sw.ports[j].portId != k
    {
      at := at + 1;
    }
  }

  lemma CopyHas(p: Port, k: string) returns (j: nat)
    requires ParseId(p.portId).Ok? && k in ParseId(p.portId).value
    ensures CopiesOf(p).Ok? && j < |CopiesOf(p).value| && CopiesOf(p).value[j].portId == k
  {
    j :| j < |ParseId(p.portId).value| && ParseId(p.portId).value[j] == k;
  }

  lemma {:induction false} ExpandIsNoShorter(ports: seq<Port>)
    requires ExpandPorts(ports).Ok?
    ensures |ExpandPorts(ports).value| >= |ports|
  {
    if ports != [] {
      ExpandIsNoShorter(ports[..|ports| - 1]);
      ParseIdNonEmpty(SplitCommas(ports[|ports| - 1].portId));
    }
  }

  lemma {:induction false} UpsertAllHas<K, R>(rows: seq<R>, key: R -> K, changes: seq<R>, i: nat) returns (at: nat)
    requires i < |changes|
    ensures at < |UpsertAll(rows, key, changes)| && key(UpsertAll(rows, key, changes)[at]) == key(changes[i])
  {
    UpsertAllFinds(rows, key, changes, key(changes[i]));
    var r := UpsertAll(rows, key, changes);
    at := 0;
    while at < |r| && key(r[at]) != key(changes[i])
      invariant at <= |r| && forall j :: 0 <= j < at ==> key(r[j]) != key(changes[i])
    {
      at := at + 1;
    }
    FindIs(r, key, key(changes[i]), at);
  }

  /** A port range in a PATCH does not reach the ports it names: where the request has no
      row with literally the id, the old port is still the one found, and the new row stands
      behind it under the same id. */
  lemma RangePatchMisses(env: Secrets, sw: SwitchConfig, request: SwitchRequest, i: nat, k: string)
    requires Settled(env, sw) && Validate(env, Patched(sw, request)).Ok? && HasPort(sw, k)
    requires i < |request.ports| && ParseId(request.ports[i].portId).Ok? && k in ParseId(request.ports[i].portId).value
    requires FindLast(request.ports, PORT_ID, k).None?
    ensures Find(Validate(env, Patched(sw, request)).value.ports, PORT_ID, k) == Find(sw.ports, PORT_ID, k)
    ensures !DistinctPortIds(Validate(env, Patched(sw, request)).value.ports)
  {
    var patched, r := Patched(sw, request), Validate(env, Patched(sw, request)).value;
    var n := |sw.ports|;
    PatchExistingPort(env, sw, request, k);
    var first := FirstPort(sw, k);
    var row := UpsertAllHas(sw.ports, PORT_ID, request.ports, i);
    forall j | 0 <= j < n ensures j < |patched.ports| && patched.ports[j].portId == sw.ports[j].portId {
      UpsertAllKeepsPlaces(sw.ports, PORT_ID, request.ports, j);
    }
    UpsertAllKeepsPlaces(sw.ports, PORT_ID, request.ports, first);
    ValidateFinishes(env, patched, n, first);
    PlainStaysOut(sw, patched, row, k);
    var copy := CopyHas(patched.ports[row], k);
    var second := CopyBehind(patched.ports, row, copy);
    ValidateKeepsPortIds(env, patched, second);
    ValidateKeepsPortIds(env, patched, first);
  }

  lemma PlainStaysOut(sw: SwitchConfig, patched: SwitchConfig, row: nat, k: string)
    requires Expanded(sw) && |sw.ports| <= |patched.ports| && row < |patched.ports|
    requires forall j :: 0 <= j < |sw.ports| ==> patched.ports[j].portId == sw.ports[j].portId
    requires ParseId(patched.ports[row].portId).Ok? && k in ParseId(patched.ports[row].portId).value
    requires patched.ports[row].portId != k
    ensures row >= |sw.ports|
  {
    if row < |sw.ports| { PlainStays(sw.ports[row].portId); }
  }

  /** No row's copies stand further to the front than the row itself. */
  lemma {:induction false} CopyBehind(ports: seq<Port>, row: nat, copy: nat) returns (at: nat)
    requires row < |ports| && ExpandPorts(ports).Ok? && CopiesOf(ports[row]).Ok? && copy < |CopiesOf(ports[row]).value|
    ensures row <= at < |ExpandPorts(ports).value| && ExpandPorts(ports).value[at] == CopiesOf(ports[row]).value[copy]
    decreases |ports|
  {
    var front, copies := ExpandLast(ports);
    if row < |ports| - 1 {
      at := CopyBehind(ports[..|ports| - 1], row, copy);
    } else {
      ExpandIsNoShorter(ports[..|ports| - 1]);
      at := |front| + copy;
    }
  }

  lemma ValidateKeepsPortIds(env: Secrets, sw: SwitchConfig, i: nat)
    requires Validate(env, sw).Ok? && i < |Expand(sw).value.ports|
    ensures i < |Validate(env, sw).value.ports| &&
      Validate(env, sw).value.ports[i].portId == Expand(sw).value.ports[i].portId
  {
    var sw1 := Expand(sw).value;
    var sw2 := sw1.(snmp := ResolveSnmp(env, sw1.snmp));
    var sw3 := Resolve(sw2, false).value;
    assert ResolvePort(sw2.vlans, sw2.ports[i], false).Ok?;
    CheckRefsCloses(sw3);
  }

  /** A PATCH that says nothing is accepted and changes nothing. */
  lemma EmptyPatchChangesNothing(env: Secrets, sw: SwitchConfig, id: Option<string>)
    requires Settled(env, sw)
    ensures Validate(env, Patched(sw, SwitchRequest(id, None, None, None, None, [], [], [], None, None))) == Ok(sw)
  {
    SettledIsFixed(env, sw);
  }

  // ---- exactly when a PATCH leaves the port ids distinct ----

  predicate Apart(a: seq<string>, b: seq<string>) { forall x <- a :: x !in b }

  lemma DistinctConcat(a: seq<string>, b: seq<string>)
    ensures Distinct(a + b) <==> Distinct(a) && Distinct(b) && Apart(a, b)
  {
    var s := a + b;
    if Distinct(s) {
      forall i, j | 0 <= i < j < |b| ensures b[i] != b[j] { assert s[|a| + i] != s[|a| + j]; }
      forall i, j | 0 <= i < j < |a| ensures a[i] != a[j] { assert s[i] != s[j]; }
      forall x | x in a ensures x !in b {
        var i :| 0 <= i < |a| && a[i] == x;
        forall j | 0 <= j < |b| ensures b[j] != x { assert s[i] != s[|a| + j]; }
      }
    }
    if Distinct(a) && Distinct(b) && Apart(a, b) {
      forall i, j | 0 <= i < j < |s| ensures s[i] != s[j] {
        if i < |a| <= j { assert a[i] in a && b[j - |a|] in b; }
      }
    }
  }

  /** Each list is without repetition, and no two share an id. */
  ghost predicate AllApart(ss: seq<seq<string>>) {
    && (forall i :: 0 <= i < |ss| ==> Distinct(ss[i]))
    && (forall i, j :: 0 <= i < j < |ss| ==> Apart(ss[i], ss[j]))
  }

  predicate InSome(ss: seq<seq<string>>, x: string) { exists s <- ss :: x in s }

  lemma {:induction false} InFlatten(ss: seq<seq<string>>, x: string)
    ensures x in Flatten(ss) <==> InSome(ss, x)
  {
    if ss != [] {
      InFlatten(ss[..|ss| - 1], x);
      assert ss == ss[..|ss| - 1] + [ss[|ss| - 1]];
    }
  }

  lemma {:induction false} DistinctFlatten(ss: seq<seq<string>>)
    ensures Distinct(Flatten(ss)) <==> AllApart(ss)
  {
    if ss != [] {
      var front, last := ss[..|ss| - 1], ss[|ss| - 1];
      DistinctFlatten(front);
      DistinctConcat(Flatten(front), last);
      forall x { InFlatten(front, x); }
      LastApart(front, last);
      assert ss == front + [last];
    }
  }

  lemma LastApart(front: seq<seq<string>>, last: seq<string>)
    requires forall x :: x in Flatten(front) <==> InSome(front, x)
    ensures AllApart(front + [last]) <==> AllApart(front) && Distinct(last) && Apart(Flatten(front), last)
  {
    var ss := front + [last];
    if AllApart(ss) {
      forall i, j | 0 <= i < j < |front| ensures Apart(front[i], front[j]) { assert Apart(ss[i], ss[j]); }
      forall i | 0 <= i < |front| ensures Distinct(front[i]) { assert Distinct(ss[i]); }
      assert Distinct(ss[|front|]);
      forall x | x in Flatten(front) ensures x !in last {
        var s :| s in front && x in s;
        var i :| 0 <= i < |front| && front[i] == s;
        assert Apart(ss[i], ss[|front|]);
      }
    }
    if AllApart(front) && Distinct(last) && Apart(Flatten(front), last) {
      forall i | 0 <= i < |front| ensures Apart(front[i], last) { assert front[i] in front; }
    }
  }

  // the rows after the upserts, by their literal ids

  predicate DistinctKeys<K(==), R>(rows: seq<R>, key: R -> K) {
    forall i, j :: 0 <= i < j < |rows| ==> key(rows[i]) != key(rows[j])
  }

  lemma {:induction false} UpsertAllDistinct<K, R>(rows: seq<R>, key: R -> K, changes: seq<R>)
    requires DistinctKeys(rows, key)
    ensures DistinctKeys(UpsertAll(rows, key, changes), key)
  {
    if changes != [] {
      UpsertAllDistinct(rows, key, changes[..|changes| - 1]);
      UpsertDistinct(UpsertAll(rows, key, changes[..|changes| - 1]), key, changes[|changes| - 1]);
    }
  }

  lemma UpsertDistinct<K, R>(rows: seq<R>, key: R -> K, row: R)
    requires DistinctKeys(rows, key)
    ensures DistinctKeys(Upsert(rows, key, row), key)
  {
    var at := 0;
    while at < |rows| && key(rows[at]) != key(row)
      invariant at <= |rows| && forall j :: 0 <= j < at ==> key(rows[j]) != key(row)
    {
      at := at + 1;
    }
    UpsertIs(rows, key, row, at);
  }

  /** Some port of the switch or some row of the request has literally that id. */
  predicate Literal(sw: SwitchConfig, request: SwitchRequest, id: string) {
    HasPort(sw, id) || exists r <- request.ports :: r.portId == id
  }

  lemma {:induction false} FindSomeFront<K, R>(rows: seq<R>, key: R -> K, k: K)
    ensures Find(rows, key, k).Some? <==> exists i :: 0 <= i < |rows| && key(rows[i]) == k
    decreases |rows|, 0
  {
    if rows != [] {
      FindSomeFront(rows[1..], key, k);
      if key(rows[0]) != k && exists i :: 0 <= i < |rows| && key(rows[i]) == k {
        var i :| 0 <= i < |rows| && key(rows[i]) == k;
        assert rows[1..][i - 1] == rows[i];
      }
    }
  }

  lemma PatchedLiterals(sw: SwitchConfig, request: SwitchRequest, id: string)
    ensures HasPort(Patched(sw, request), id) <==> Literal(sw, request, id)
  {
    var ports := Patched(sw, request).ports;
    UpsertAllFinds(sw.ports, PORT_ID, request.ports, id);
    PortFound(ports, id);
    PortFound(sw.ports, id);
    if exists i :: 0 <= i < |request.ports| && PORT_ID(request.ports[i]) == id {
      var i :| 0 <= i < |request.ports| && PORT_ID(request.ports[i]) == id;
      assert request.ports[i] in request.ports;
    }
  }

  lemma PortFound(ports: seq<Port>, id: string)
    ensures Find(ports, PORT_ID, id).Some? <==> exists p :: p in ports && p.portId == id
  {
    FindSomeFront(ports, PORT_ID, id);
    if exists i :: 0 <= i < |ports| && PORT_ID(ports[i]) == id {
      var i :| 0 <= i < |ports| && PORT_ID(ports[i]) == id;
      assert ports[i] in ports;
    }
  }

  /** Of distinct literal ids each names distinct ids, and no two name the same. */
  ghost predicate LiteralsApart(sw: SwitchConfig, request: SwitchRequest) {
    && (forall a :: Literal(sw, request, a) ==> Distinct(NamedIds(a)))
    && (forall a, b :: Literal(sw, request, a) && Literal(sw, request, b) && a != b ==> Apart(NamedIds(a), NamedIds(b)))
  }

  lemma RowsApartByLiterals(sw: SwitchConfig, request: SwitchRequest)
    requires DistinctKeys(Patched(sw, request).ports, PORT_ID)
    ensures AllApart(Names(Patched(sw, request).ports)) <==> LiteralsApart(sw, request)
  {
    var ports, names := Patched(sw, request).ports, Names(Patched(sw, request).ports);
    forall id { PatchedLiterals(sw, request, id); }
    forall i | 0 <= i < |ports| ensures Literal(sw, request, ports[i].portId) { assert ports[i] in ports; }
    forall a | Literal(sw, request, a) ensures exists i :: 0 <= i < |ports| && ports[i].portId == a {
      var p :| p in ports && p.portId == a;
    }
    if LiteralsApart(sw, request) {
      forall i, j | 0 <= i < j < |ports| ensures Apart(NamedIds(ports[i].portId), NamedIds(ports[j].portId)) {
        assert PORT_ID(ports[i]) != PORT_ID(ports[j]);
      }
    }
    if AllApart(names) {
      forall a | Literal(sw, request, a) ensures Distinct(NamedIds(a)) {
        var i :| 0 <= i < |ports| && ports[i].portId == a;
        assert Distinct(names[i]);
      }
      forall a, b | Literal(sw, request, a) && Literal(sw, request, b) && a != b
        ensures Apart(NamedIds(a), NamedIds(b))
      {
        var i :| 0 <= i < |ports| && ports[i].portId == a;
        var j :| 0 <= j < |ports| && ports[j].portId == b;
        if i < j { assert Apart(names[i], names[j]); } else { assert Apart(names[j], names[i]); }
      }
    }
  }

  /** What a request has to look like. */
  ghost predicate NamesApart(sw: SwitchConfig, request: SwitchRequest) {
    && (forall r, id :: r in request.ports && id in NamedIds(r.portId) && HasPort(sw, id) ==> id == r.portId)
    && (forall r, t :: r in request.ports && t in request.ports && r.portId != t.portId
          ==> Apart(NamedIds(r.portId), NamedIds(t.portId)))
    && (forall r :: r in request.ports ==> Distinct(NamedIds(r.portId)))
  }

  lemma LiteralsByRequest(sw: SwitchConfig, request: SwitchRequest)
    requires Expanded(sw)
    ensures LiteralsApart(sw, request) <==> NamesApart(sw, request)
  {
    forall a | HasPort(sw, a) ensures NamedIds(a) == [a] {
      var p :| p in sw.ports && p.portId == a;
      var i :| 0 <= i < |sw.ports| && sw.ports[i] == p;
      PlainStays(a);
    }
    if LiteralsApart(sw, request) {
      forall r, id | r in request.ports && id in NamedIds(r.portId) && HasPort(sw, id) ensures id == r.portId {
        assert id != r.portId ==> Apart(NamedIds(r.portId), NamedIds(id));
      }
    }
    if NamesApart(sw, request) {
      forall a, b | Literal(sw, request, a) && Literal(sw, request, b) && a != b
        ensures Apart(NamedIds(a), NamedIds(b))
      {
        if HasPort(sw, a) && !HasPort(sw, b) { assert a !in NamedIds(b); }
      }
    }
  }

  /** Exactly when an accepted PATCH leaves the port ids of a switch distinct: every id that
      a row names and the switch already has is that row's literal id, rows of different
      literal ids name disjoint ids, and no row names an id twice. */
  lemma PatchKeepsIdsDistinct(env: Secrets, sw: SwitchConfig, request: SwitchRequest)
    requires Settled(env, sw) && DistinctPortIds(sw.ports) && Validate(env, Patched(sw, request)).Ok?
    ensures DistinctPortIds(Validate(env, Patched(sw, request)).value.ports) <==> NamesApart(sw, request)
  {
    var patched, r := Patched(sw, request), Validate(env, Patched(sw, request)).value;
    UpsertAllDistinct(sw.ports, PORT_ID, request.ports);
    LiteralsByRequest(sw, request);
    RowsApartByLiterals(sw, request);
    DistinctFlatten(Names(patched.ports));
    ResultIdsAreNamed(env, patched);
  }

  lemma ResultIdsAreNamed(env: Secrets, sw: SwitchConfig)
    requires Validate(env, sw).Ok?
    ensures |Validate(env, sw).value.ports| == |Flatten(Names(sw.ports))|
    ensures forall i :: 0 <= i < |Flatten(Names(sw.ports))| ==>
      Validate(env, sw).value.ports[i].portId == Flatten(Names(sw.ports))[i]
  {
    ExpandedAreNamed(sw.ports);
    forall i | 0 <= i < |Flatten(Names(sw.ports))|
      ensures Validate(env, sw).value.ports[i].portId == Flatten(Names(sw.ports))[i]
    {
      ValidateKeepsPortIds(env, sw, i);
    }
  }

  // ---- the same on a concrete switch ----

  const ONE := "port" + ToDecimal(1)
  const TWO := "port" + ToDecimal(2)
  const ONE_TO_TWO := "port" + ToDecimal(1) + "-" + ("port" + ToDecimal(2))
  const EXTRAS := PortExtras(Access, None, true, false, false, Auto)
  const OLD_PORT := Port(ONE, 1, [], EXTRAS, None, [])
  const RANGE_ROW := Port(ONE_TO_TWO, 10, [], EXTRAS, None, [])
  const ONE_PORT_SWITCH := SwitchConfig("sw1", Some("sw1"), Some(Fortiswitch124F_FPOE), Some("192.0.2.1"),
    Some(Credentials("admin", None, 22)), [Vlan(10, "lan", None, NoAddress)], [OLD_PORT], [], None, None,
    DEFAULT_SETTINGS)
  const RANGE_PATCH := SwitchRequest(None, None, None, None, None, [], [RANGE_ROW], [], None, None)

  lemma RangeOfTwo()
    ensures ParseId(ONE_TO_TWO) == Ok([ONE, TWO])
  {
    var e := RangeEnds("port", 1, "port", 2);
    RangeExpands(e, "", "", "", "");
    TextWithoutBlanks(e);
    var ids := ParseId(ONE_TO_TWO).value;
    assert ids == [ids[0], ids[1]];
  }

  lemma PlainPorts()
    ensures Plain(ONE) && Plain(TWO) && ONE != ONE_TO_TWO
  {
    IdShape("port", 1);
    IdShape("port", 2);
    assert |ONE_TO_TWO| > |ONE|;
  }

  lemma OnePortIsSettled(env: Secrets)
    ensures Settled(env, ONE_PORT_SWITCH)
  {
    PlainPorts();
    var sw := ONE_PORT_SWITCH;
    assert NameOk(Fortiswitch124F_FPOE, sw.vlans[0]);
    assert PortRefsOk(sw, OLD_PORT, true);
  }

  const TWO_PORTS := [Port(ONE, 10, [], EXTRAS, None, []), Port(TWO, 10, [], EXTRAS, None, [])]

  lemma TwoRowsExpand(a: Port, b: Port, ids: seq<string>)
    requires Plain(a.portId) && ParseId(b.portId) == Ok(ids)
    ensures ExpandPorts([a, b]) == Ok([a] + Copies(b, ids))
  {
    assert [a, b] == [a] + [b];
    GatheredOfSnoc([a], b, COPIES_OF);
    PlainPortsStay([a]);
  }

  lemma NewRowIsAdded(a: Port, b: Port)
    requires a.portId != b.portId
    ensures UpsertAll([a], PORT_ID, [b]) == [a, b]
  {
    UpsertIs([a], PORT_ID, b, 1);
    assert UpsertAll([a], PORT_ID, [b][..0]) == [a];
  }

  lemma PatchAddsRow(sw: SwitchConfig, a: Port, b: Port, request: SwitchRequest)
    requires sw.ports == [a] && a.portId != b.portId
    requires request == SwitchRequest(None, None, None, None, None, [], [b], [], None, None)
    ensures Patched(sw, request) == sw.(ports := [a, b])
  {
    NewRowIsAdded(a, b);
  }

  lemma PortsExpand(sw: SwitchConfig, ports: seq<Port>)
    requires ExpandPorts(sw.ports) == Ok(ports) && sw.portMirrors == []
    ensures Expand(sw) == Ok(sw.(ports := ports))
  {
    assert ExpandMirrors([]) == [];
  }

  lemma RangePatchExpands()
    ensures Expand(Patched(ONE_PORT_SWITCH, RANGE_PATCH)) == Ok(ONE_PORT_SWITCH.(ports := [OLD_PORT] + TWO_PORTS))
  {
    RangeOfTwo();
    PlainPorts();
    AddedRangeExpands(ONE_PORT_SWITCH, OLD_PORT, RANGE_ROW, RANGE_PATCH, ONE, TWO);
  }

  lemma AddedRangeExpands(sw: SwitchConfig, a: Port, b: Port, request: SwitchRequest, one: string, two: string)
    requires sw.ports == [a] && sw.portMirrors == [] && a.portId != b.portId
    requires request == SwitchRequest(None, None, None, None, None, [], [b], [], None, None)
    requires Plain(a.portId) && ParseId(b.portId) == Ok([one, two])
    ensures Expand(Patched(sw, request)) == Ok(sw.(ports := [a] + [b.(portId := one), b.(portId := two)]))
  {
    AddedRowExpands(sw, a, b, request, [one, two]);
    assert Copies(b, [one, two]) == [b.(portId := one), b.(portId := two)];
  }

  lemma AddedRowExpands(sw: SwitchConfig, a: Port, b: Port, request: SwitchRequest, ids: seq<string>)
    requires sw.ports == [a] && sw.portMirrors == [] && a.portId != b.portId
    requires request == SwitchRequest(None, None, None, None, None, [], [b], [], None, None)
    requires Plain(a.portId) && ParseId(b.portId) == Ok(ids)
    ensures Expand(Patched(sw, request)) == Ok(sw.(ports := [a] + Copies(b, ids)))
  {
    PatchAddsRow(sw, a, b, request);
    TwoRowsExpand(a, b, ids);
    PortsExpand(Patched(sw, request), [a] + Copies(b, ids));
  }

  lemma ThreePortsAccepted(sw: SwitchConfig)
    requires sw == ONE_PORT_SWITCH.(ports := [OLD_PORT] + TWO_PORTS)
    ensures Resolve(sw, false) == Ok(sw) && CheckRefs(sw, false).Ok? && WellFormed(sw)
  {
    assert forall i :: 0 <= i < |sw.ports| ==>
      sw.ports[i].Resolved() && sw.ports[i].vlan in {1, 10} && sw.ports[i].extras == EXTRAS;
    assert ResolvePorts(sw.vlans, sw.ports, false) == sw.ports;
    assert NameOk(Fortiswitch124F_FPOE, sw.vlans[0]);
    assert sw.vlans[0] in sw.vlans && Defined(sw, 10) && Defined(sw, 1);
    forall i | 0 <= i < |sw.ports| ensures PortRefsOk(sw, sw.ports[i], false) {}
  }

  lemma UntaggedStay(sw: SwitchConfig)
    requires sw.model.Some? && CheckRefs(sw, false).Ok? && forall p :: p in sw.ports ==> p.taggedVlans == []
    ensures CheckRefs(sw, false) == Ok(sw)
  {
    assert forall i :: 0 <= i < |sw.ports| ==> sw.ports[i] in sw.ports;
    assert FilteredPorts(sw) == sw.ports;
  }

  const PATCHED_SWITCH := ONE_PORT_SWITCH.(ports := [OLD_PORT] + TWO_PORTS)

  lemma RangePatchIsAccepted(env: Secrets)
    ensures Validate(env, Patched(ONE_PORT_SWITCH, RANGE_PATCH)) == Ok(PATCHED_SWITCH)
  {
    RangePatchExpands();
    var sw := PATCHED_SWITCH;
    ThreePortsAccepted(sw);
    UntaggedStay(sw);
    assert sw.(snmp := ResolveSnmp(env, sw.snmp)) == sw;
  }

  /** Port 1, VLAN 1, and a PATCH that puts ports 1-2 into VLAN 10: it is accepted, port 1 is
      still found in VLAN 1, and there are two rows for it. */
  lemma RangePatchExample(env: Secrets)
    ensures Settled(env, ONE_PORT_SWITCH) && Validate(env, Patched(ONE_PORT_SWITCH, RANGE_PATCH)).Ok?
    ensures var r := Validate(env, Patched(ONE_PORT_SWITCH, RANGE_PATCH)).value;
      Find(r.ports, PORT_ID, ONE) == Some(OLD_PORT) && !DistinctPortIds(r.ports)
  {
    RangeOfTwo();
    PlainPorts();
    OnePortIsSettled(env);
    RangePatchIsAccepted(env);
    assert OLD_PORT in ONE_PORT_SWITCH.ports;
    assert FindLast(RANGE_PATCH.ports, PORT_ID, ONE).None?;
    RangePatchMisses(env, ONE_PORT_SWITCH, RANGE_PATCH, 0, ONE);
  }
}
