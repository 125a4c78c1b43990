/** What the turn and the session pool promise together, in every reachable state. */
module ProtocolTheorems {
  import opened Basics
  import Models
  import opened Turnstile
  import opened Sessions
  import opened Protocol
  import opened ProtocolInvariants
  import opened ProtocolRuns

  ghost predicate Holds(l: Line, o: Op, s: Vendor) {
    o in l.ops && l.ops[o].Holding? && s in l.ops[o].work.Hand()
  }

  ghost predicate KeptOrHeld(l: Line, s: Vendor) {
    s in Kept(l.pool) || exists o :: Holds(l, o, s)
  }

  lemma Invariants(run: seq<System>, i: nat, id: string)
    requires IsRun(run) && i < |run|
    ensures LineInv(run[i].Of(id), run[i].nextToken)
  {
    Reachable(run, i);
  }

  // ---- sessions ----

  /** A switch has at most one session that is kept or in the hands of a guard holder. */
  lemma AtMostOneSession(run: seq<System>, i: nat, id: string, s1: Vendor, s2: Vendor)
    requires IsRun(run) && i < |run|
    requires KeptOrHeld(run[i].Of(id), s1) && KeptOrHeld(run[i].Of(id), s2)
    ensures s1 == s2
  {
    Invariants(run, i, id);
  }

  /** The operation began to apply, and does so as long as it has its guard. */
  predicate AppliesWhileHolding(l: Line, o: Op) {
    && o in l.ops && (l.ops[o].Holding? || l.ops[o].CleaningUp? || l.ops[o].Cleared? || l.ops[o].Done?)
    && (l.ops[o].Holding? ==> l.ops[o].work.Applying())
  }

  lemma StepKeepsApplying(l: Line, tok: Token, a: Action, o: Op)
    requires QueueMembers(l) && Enabled(l, a) && AppliesWhileHolding(l, o)
    ensures AppliesWhileHolding(Step(l, tok, a).0, o)
  {
    if !MovesPermit(a) { StepKeepsApplyingInPlace(l, tok, a, o); }
  }

  lemma StepKeepsApplyingInPlace(l: Line, tok: Token, a: Action, o: Op)
    requires Enabled(l, a) && AppliesWhileHolding(l, o) && !MovesPermit(a)
    ensures AppliesWhileHolding(Step(l, tok, a).0, o)
  {
  }

  lemma {:induction false} StaysApplying(run: seq<System>, i: nat, j: nat, id: string, o: Op)
    requires IsRun(run) && i <= j < |run| && AppliesWhileHolding(run[i].Of(id), o)
    ensures AppliesWhileHolding(run[j].Of(id), o)
    decreases j
  {
    if i < j {
      StaysApplying(run, i, j - 1, id, o);
      assert Linked(run, j - 1);
      var at, a :| Steps(run[j - 1], run[j], at, a);
      Invariants(run, j - 1, at);
      if at == id { StepKeepsApplying(run[j - 1].Of(id), run[j - 1].nextToken, a, o); }
    }
  }

  /** From `close_idle` until it gives up its guard, whatever fails in between, an apply is
      alone: nothing is kept and no other operation holds the guard, whatever timers and
      unguarded requests do. */
  lemma ApplyIsAlone(run: seq<System>, i: nat, j: nat, id: string, o: Op)
    requires IsRun(run) && i <= j < |run|
    requires var l := run[i].Of(id); o in l.ops && l.ops[o].Holding? && l.ops[o].work.Applying()
    requires var l := run[j].Of(id); o in l.ops && l.ops[o].Holding?
    ensures var l := run[j].Of(id);
      l.pool.slot == None && forall other :: other in l.ops && other != o ==> !l.ops[other].Holding?
  {
    StaysApplying(run, i, j, id, o);
    Invariants(run, j, id);
  }

  /** `release` finds the slot empty, so it replaces nothing and always goes on to arm its timer. */
  lemma ReleaseReplacesNothing(run: seq<System>, i: nat, id: string, o: Op)
    requires IsRun(run) && i < |run|
    requires var l := run[i].Of(id); o in l.ops && l.ops[o].Holding?
    ensures var l := run[i].Of(id); !l.ops[o].work.ReplacedClosing? && (l.ops[o].work.Keeping? ==> l.pool.slot == None)
  {
    Invariants(run, i, id);
  }

  /** Every opened session is in exactly one place, and `disconnect` is called on it at
      most once: never while kept, and exactly once by the time it is closed. */
  lemma SessionsConserved(run: seq<System>, i: nat, id: string, s: Vendor)
    requires IsRun(run) && i < |run|
    ensures var l := run[i].Of(id);
      && Places(l.pool, CurrentWork(l), s) == (if s < l.pool.openCount then 1 else 0)
      && ((exists o :: Holds(l, o, s)) <==> s in CurrentWork(l).Hand())
      && l.pool.disconnects[s] <= 1
      && (s in Kept(l.pool) ==> l.pool.disconnects[s] == 0)
      && (s in l.pool.closed ==> l.pool.disconnects[s] == 1)
  {
    Invariants(run, i, id);
    var l := run[i].Of(id);
    assert SessionOk(l.pool, CurrentWork(l), s);
    if s in CurrentWork(l).Hand() { assert Holds(l, l.owner.value, s); }
  }

  ghost predicate OpenedFor(p: Pool, s: Vendor, c: Models.SwitchConfig) {
    s in p.openedUnder && p.openedUnder[s] == FingerprintOf(c)
  }

  /** A checked-out session was opened under exactly the settings it is handed out for,
      at whatever earlier point of the run that was: a session opened for `a` that serves an
      operation on `b` has the login, address and options that `b` asks for. */
  lemma ReuseNeedsEqualSettings(run: seq<System>, i: nat, j: nat, id: string, o: Op)
    requires IsRun(run) && i <= j < |run|
    requires var l := run[j].Of(id); o in l.ops && l.ops[o].Holding? && l.ops[o].work.InUse?
    ensures var s := run[j].Of(id).ops[o].work.s;
      && s in run[j].Of(id).pool.openedUnder && run[j].Of(id).pool.openedUnder[s] == run[j].Of(id).ops[o].work.fp
      && (s in run[i].Of(id).pool.openedUnder ==> run[i].Of(id).pool.openedUnder[s] == run[j].Of(id).ops[o].work.fp)
    ensures var w := run[j].Of(id).ops[o].work;
      forall a, b | OpenedFor(run[i].Of(id).pool, w.s, a) && w.fp == FingerprintOf(b) :: SameConnection(a, b)
  {
    Invariants(run, j, id);
    HistoryGrows(run, i, j, id);
  }

  // ---- tokens and idle timers ----

  /** Every kept session has an idle timer pending under its own token, or its release is
      between its insertion and the spawn of that timer, where it cannot be cancelled. */
  lemma KeptSessionHasTimer(run: seq<System>, i: nat, id: string)
    requires IsRun(run) && i < |run| && run[i].Of(id).pool.slot.Some?
    ensures var l := run[i].Of(id); var token := l.pool.slot.value.token;
      token in l.pool.timers || exists o ::
        o in l.ops && l.ops[o] == Holding(Arming(token)) && !Enabled(l, DropGuard(o))
  {
    Invariants(run, i, id);
    var l := run[i].Of(id);
    if l.pool.slot.value.token !in l.pool.timers {
      assert l.ops[l.owner.value] == Holding(Arming(l.pool.slot.value.token));
    }
  }

  /** What is known about tokens and settings in `s` is still so in `s'`, and tokens the
      counter had passed by `s` were not added later. */
  ghost predicate Extends(s: System, s': System, id: string) {
    var p, p' := s.Of(id).pool, s'.Of(id).pool;
    && s.nextToken <= s'.nextToken
    && (forall t :: t in p.keepOpens ==> t in p'.keepOpens && p'.keepOpens[t] == p.keepOpens[t])
    && (forall t :: t in p'.keepOpens && t < s.nextToken ==> t in p.keepOpens)
    && (forall v :: v in p.openedUnder ==> v in p'.openedUnder && p'.openedUnder[v] == p.openedUnder[v])
  }

  lemma StepExtends(s: System, s': System, at: string, a: Action, id: string)
    requires PoolInv(s.Of(at).pool, CurrentWork(s.Of(at)), s.nextToken) && Steps(s, s', at, a)
    requires s.nextToken <= s'.nextToken
    ensures Extends(s, s', id)
  {
    StepGrows(s.Of(at), s.nextToken, a);
  }

  lemma RunExtends(run: seq<System>, j: nat, id: string)
    requires IsRun(run) && j + 1 < |run|
    ensures Extends(run[j], run[j + 1], id)
  {
    assert Linked(run, j);
    var at, a :| Steps(run[j], run[j + 1], at, a);
    Invariants(run, j, at);
    StepKeeps(run[j].Of(at), run[j].nextToken, a);
    StepExtends(run[j], run[j + 1], at, a, id);
  }

  lemma {:induction false} HistoryGrows(run: seq<System>, i: nat, j: nat, id: string)
    requires IsRun(run) && i <= j < |run|
    ensures Extends(run[i], run[j], id)
    decreases j
  {
    if i < j {
      HistoryGrows(run, i, j - 1, id);
      RunExtends(run, j - 1, id);
    }
  }

  /** A timer armed at some point of the run can later close only the session that its own
      token kept open then. If the slot has been released again since, it does nothing. */
  lemma TimerClosesOnlyItsKeepOpen(run: seq<System>, i: nat, j: nat, id: string, token: Token)
    requires IsRun(run) && i <= j < |run|
    requires token in run[i].Of(id).pool.timers && token in run[j].Of(id).pool.timers
    ensures var p, then_ := run[j].Of(id).pool, run[i].Of(id).pool; var p' := BackgroundStep(p, Fire(token));
      && token in then_.keepOpens
      && (p'.slot != p.slot ==>
        p.slot.Some? && p.slot.value.token == token && p.slot.value.vendor == then_.keepOpens[token])
      && (p'.closers == p.closers || p'.closers == p.closers + {then_.keepOpens[token]})
      && (p.slot.Some? && p.slot.value.token != token ==> p'.slot == p.slot && p'.closers == p.closers)
  {
    Invariants(run, i, id);
    Invariants(run, j, id);
    HistoryGrows(run, i, j, id);
  }

  /** Tokens are never issued twice: not later for the same switch, not for another one. */
  lemma TokensNeverReissued(run: seq<System>, i: nat, j: nat, id: string, other: string, token: Token)
    requires IsRun(run) && i <= j < |run| && token in run[i].Of(id).pool.keepOpens
    ensures token < run[j].nextToken
    ensures token in run[j].Of(id).pool.keepOpens &&
      run[j].Of(id).pool.keepOpens[token] == run[i].Of(id).pool.keepOpens[token]
    ensures other != id ==> token !in run[j].Of(other).pool.keepOpens
  {
    Invariants(run, i, id);
    HistoryGrows(run, i, j, id);
    Reachable(run, j);
  }

  // ---- the turn ----

  /** The busy flag is set exactly while some operation's guard is live or waiting for its
      cleanup; there is at most one such operation, and it has the only permit. */
  lemma BusyExactlyWhileGuarded(run: seq<System>, i: nat, id: string)
    requires IsRun(run) && i < |run|
    ensures var l := run[i].Of(id);
      && (l.turn.busy <==> exists o :: o in l.ops && l.ops[o].Marked())
      && (forall o1, o2 :: o1 in l.ops && o2 in l.ops && l.ops[o1].HasPermit() && l.ops[o2].HasPermit() ==> o1 == o2)
      && (l.turn.gate.turn.available == 0 <==> exists o :: o in l.ops && l.ops[o].HasPermit())
      && l.turn.gate.turn.available <= 1
  {
    Invariants(run, i, id);
    var l := run[i].Of(id);
    if l.owner.Some? { assert l.owner.value in l.ops && l.ops[l.owner.value].HasPermit(); }
  }

  /** Clearing the flag, by `release` or by a dropped guard's late cleanup, never takes it
      from anyone else: no other operation has the switch marked at that moment. */
  lemma ClearTakesOnlyOwnFlag(run: seq<System>, i: nat, id: string, o: Op, other: Op)
    requires IsRun(run) && i < |run| && Enabled(run[i].Of(id), Clear(o))
    requires other != o && other in run[i].Of(id).ops
    ensures run[i].Of(id).turn.busy && !run[i].Of(id).ops[other].HasPermit()
  {
    Invariants(run, i, id);
  }

  /** The waiting count is the number of operations that are still waiting. */
  lemma WaitingCountExact(run: seq<System>, i: nat, id: string)
    requires IsRun(run) && i < |run|
    ensures run[i].Of(id).turn.gate.waiting == |WaitingOps(run[i].Of(id).ops)|
  {
    Invariants(run, i, id);
  }

  /** Whoever does not queue only gets a switch nobody holds and nobody queues for. */
  lemma NoBarging(run: seq<System>, i: nat, id: string, o: Op)
    requires IsRun(run) && i < |run| && TryAcquire(run[i].Of(id).turn).1 && o in run[i].Of(id).ops
    ensures !run[i].Of(id).ops[o].Queued? && !run[i].Of(id).ops[o].HasPermit()
  {
    Invariants(run, i, id);
  }

  lemma ServedBeforeQueued(l: Line, tok: Token, first: Op, t: nat)
    requires LineInv(l, tok) && first in l.ops && l.ops[first].Queued? && t in l.served
    ensures t < l.tickets[first]
  {
    var q := l.turn.gate.turn.queue;
    var s := l.served + QueueTickets(l);
    var k :| 0 <= k < |q| && q[k] == first;
    var n :| 0 <= n < |l.served| && l.served[n] == t;
    assert s[n] < s[|l.served| + k];
  }

  /** First come, first served: once `second`, who arrived later, has the permit, `first`
      is not queued any more: it was served before, or it gave up. */
  lemma FirstComeFirstServed(run: seq<System>, i: nat, id: string, first: Op, second: Op)
    requires IsRun(run) && i < |run|
    requires var l := run[i].Of(id); first in l.tickets && second in l.tickets && l.tickets[first] < l.tickets[second]
    requires var l := run[i].Of(id); second in l.ops && l.ops[second].HasPermit()
    ensures var l := run[i].Of(id); first in l.ops && !l.ops[first].Queued?
  {
    Invariants(run, i, id);
    var l := run[i].Of(id);
    forall t | t in l.served && l.ops[first].Queued? ensures t < l.tickets[first] {
      ServedBeforeQueued(l, run[i].nextToken, first, t);
    }
  }

  /** The order in which the permit was handed out is the order of arrival. */
  lemma ServedInArrivalOrder(run: seq<System>, i: nat, id: string, m: nat, n: nat)
    requires IsRun(run) && i < |run| && m < n < |run[i].Of(id).served|
    ensures run[i].Of(id).served[m] < run[i].Of(id).served[n]
  {
    Invariants(run, i, id);
    var l := run[i].Of(id);
    var s := l.served + QueueTickets(l);
    assert s[m] < s[n];
  }

  /** The permit comes back with this step. */
  predicate Returns(l: Line, a: Action)
    requires Enabled(l, a)
  {
    a.CancelUnmarked? || a.DropPermit? || (a.GiveUp? && l.ops[a.o].Granted?)
  }

  /** A waiter's position never grows. When the permit comes back everyone moves up by one:
      the head is granted the turn, whatever anyone else does. */
  lemma PositionNeverGrows(run: seq<System>, i: nat, id: string, a: Action, k: nat)
    requires IsRun(run) && i + 1 < |run| && Steps(run[i], run[i + 1], id, a)
    requires k < |run[i].Of(id).turn.gate.turn.queue|
    requires a != GiveUp(run[i].Of(id).turn.gate.turn.queue[k])
    ensures var l, l' := run[i].Of(id), run[i + 1].Of(id); var o := l.turn.gate.turn.queue[k];
      if Returns(l, a) && k == 0 then o in l'.ops && l'.ops[o] == Granted && l'.owner == Some(o)
      else exists k' :: (0 <= k' <= k && k' < |l'.turn.gate.turn.queue| && l'.turn.gate.turn.queue[k'] == o &&
                         (Returns(l, a) ==> k' == k - 1))
  {
    var l, l' := run[i].Of(id), run[i + 1].Of(id);
    Invariants(run, i, id);
    NextLine(run[i], run[i + 1], id, a);
    if Returns(l, a) {
      ReturnMovesUp(l, run[i].nextToken, a, k);
      assert k > 0 ==> l'.turn.gate.turn.queue[k - 1] == l.turn.gate.turn.queue[k];
    } else {
      var k' := PositionStays(l, run[i].nextToken, a, k);
      assert l'.turn.gate.turn.queue[k'] == l.turn.gate.turn.queue[k];
    }
  }

  lemma NextLine(s: System, s': System, id: string, a: Action)
    requires Steps(s, s', id, a)
    ensures Enabled(s.Of(id), a) && s'.Of(id) == Step(s.Of(id), s.nextToken, a).0
  {
  }

  lemma ReturnMovesUp(l: Line, tok: Token, a: Action, k: nat)
    requires TurnInv(l) && Enabled(l, a) && Returns(l, a) && k < |l.turn.gate.turn.queue|
    ensures var l' := Step(l, tok, a).0; var o := l.turn.gate.turn.queue[k];
      && l'.turn.gate.turn.queue == l.turn.gate.turn.queue[1..]
      && (k == 0 ==> o in l'.ops && l'.ops[o] == Granted && l'.owner == Some(o))
      && (k > 0 ==> l'.turn.gate.turn.queue[k - 1] == o)
  {
    assert l.turn.gate.turn.queue[0] in l.tickets;
  }

  lemma PositionStays(l: Line, tok: Token, a: Action, k: nat) returns (k': nat)
    requires Enabled(l, a) && !Returns(l, a) && k < |l.turn.gate.turn.queue|
    requires a != GiveUp(l.turn.gate.turn.queue[k])
    ensures k' <= k && k' < |Step(l, tok, a).0.turn.gate.turn.queue|
    ensures Step(l, tok, a).0.turn.gate.turn.queue[k'] == l.turn.gate.turn.queue[k]
  {
    var q := l.turn.gate.turn.queue;
    k' := k;
    if a.GiveUp? {
      var c := WithoutIsCut(q, a.o);
      if a.o in q && c < k { k' := k - 1; }
    } else {
      QueuePrefix(l, tok, a);
    }
  }

  lemma QueuePrefix(l: Line, tok: Token, a: Action)
    requires Enabled(l, a) && !Returns(l, a) && !a.GiveUp?
    ensures l.turn.gate.turn.queue <= Step(l, tok, a).0.turn.gate.turn.queue
  {
  }

  // ---- reloads queued by the file watcher ----

  /** A reload the watcher queued because the switch was busy is never taken: the watcher
      takes one only while it applies, and it cannot start to apply while one is pending.
      From then on every acquisition that does not queue is refused. */
  lemma QueuedReloadIsStuck(run: seq<System>, i: nat, j: nat, id: string)
    requires IsRun(run) && i <= j < |run| && run[i].Of(id).turn.reloadPending
    ensures run[j].Of(id).turn.reloadPending && !TryAcquire(run[j].Of(id).turn).1
    ensures forall o :: !Enabled(run[j].Of(id), TakeReload(o))
  {
    PendingForever(run, i, j, id);
    Invariants(run, j, id);
  }

  lemma {:induction false} PendingForever(run: seq<System>, i: nat, j: nat, id: string)
    requires IsRun(run) && i <= j < |run| && run[i].Of(id).turn.reloadPending
    ensures run[j].Of(id).turn.reloadPending
    decreases j
  {
    if i < j {
      PendingForever(run, i, j - 1, id);
      StepKeepsPending(run, j - 1, id);
    }
  }

  lemma StepKeepsPending(run: seq<System>, j: nat, id: string)
    requires IsRun(run) && j + 1 < |run| && run[j].Of(id).turn.reloadPending
    ensures run[j + 1].Of(id).turn.reloadPending
  {
    assert Linked(run, j);
    var at, a :| Steps(run[j], run[j + 1], at, a);
    Invariants(run, j, at);
    PendingStays(run[j].Of(at), run[j].nextToken, a);
  }

  lemma PendingStays(l: Line, tok: Token, a: Action)
    requires WatcherInv(l) && Enabled(l, a)
    ensures l.turn.reloadPending ==> Step(l, tok, a).0.turn.reloadPending
  {
  }

  /** Such a run: an operation takes the turn, the watcher is refused and queues its reload. */
  lemma ReloadGetsStuck(id: string) returns (run: seq<System>)
    ensures IsRun(run) && |run| == 4 && run[3].Of(id).turn.reloadPending
  {
    var l1 := Step(START, 0, Try(0)).0;
    var l2 := Step(l1, 0, WatcherTry(1)).0;
    var l3 := Step(l2, 0, QueueReload).0;
    var s1, s2, s3 := System(map[id := l1], 0), System(map[id := l2], 0), System(map[id := l3], 0);
    assert BOOT.Of(id) == START && Steps(BOOT, s1, id, Try(0));
    assert s1.lines[id := l2] == map[id := l2] && Steps(s1, s2, id, WatcherTry(1));
    assert s2.lines[id := l3] == map[id := l3] && Steps(s2, s3, id, QueueReload);
    run := [BOOT, s1, s2, s3];
    forall k: nat | k + 1 < |run| ensures Linked(run, k) {
      assert k == 0 || k == 1 || k == 2;
    }
  }
}
