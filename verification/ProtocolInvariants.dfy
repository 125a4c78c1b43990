/** What every step of the protocol keeps. */
module ProtocolInvariants {
  import opened Basics
  import opened Turnstile
  import opened Sessions
  import opened Protocol

  ghost function Kept(p: Pool): set<Vendor> {
    if p.slot.Some? then {p.slot.value.vendor} else {}
  }

  /** In how many places session `s` is. */
  ghost function Places(p: Pool, w: Work, s: Vendor): nat {
    (if s in Kept(p) then 1 else 0) + (if s in w.Hand() then 1 else 0) + (if s in p.closers then 1 else 0)
    + (if s in p.closed then 1 else 0) + (if s in p.dropped then 1 else 0)
  }

  /** An opened session is in exactly one place; `disconnect` is called on it at most
      once, not before it stops being kept or used, and always by the time it is closed. */
  ghost predicate SessionOk(p: Pool, w: Work, s: Vendor) {
    && Places(p, w, s) == (if s < p.openCount then 1 else 0)
    && p.disconnects[s] <= 1
    && (s in Kept(p) || s >= p.openCount ==> p.disconnects[s] == 0)
    && (s in w.Hand() ==> p.disconnects[s] == if w.Disconnecting() then 1 else 0)
    && (s in p.closers || s in p.closed ==> p.disconnects[s] == 1)
  }

  ghost predicate Conserved(p: Pool, w: Work) {
    forall s: Vendor :: SessionOk(p, w, s)
  }

  /** A session waits in the slot only while the operation holding the turn has none. */
  predicate Exclusive(p: Pool, w: Work) {
    && !w.ReplacedClosing?
    && (p.slot.Some? ==> w.Free? || w.Arming?)
  }

  predicate FingerprintsMatch(p: Pool, w: Work) {
    && (forall s :: s in p.openedUnder ==> s < p.openCount)
    && (p.slot.Some? ==>
      p.slot.value.vendor in p.openedUnder && p.openedUnder[p.slot.value.vendor] == p.slot.value.fingerprint)
    && (w.Resuming? || w.InUse? || w.Keeping? ==> w.s in p.openedUnder && p.openedUnder[w.s] == w.fp)
  }

  predicate TimersMatch(p: Pool, w: Work, tok: Token) {
    && (forall t :: t in p.keepOpens ==> t < tok)
    && p.timers <= p.keepOpens.Keys
    && (w.Arming? ==> w.token in p.keepOpens && w.token !in p.timers)
    && (p.slot.Some? ==>
          && p.slot.value.token in p.keepOpens && p.keepOpens[p.slot.value.token] == p.slot.value.vendor
          && (p.slot.value.token in p.timers || w == Arming(p.slot.value.token)))
  }

  ghost predicate PoolInv(p: Pool, w: Work, tok: Token) {
    Exclusive(p, w) && Conserved(p, w) && FingerprintsMatch(p, w) && TimersMatch(p, w, tok)
  }

  lemma StepMovesSession(p: Pool, w: Work, tok: Token, a: PoolAction, s: Vendor)
    requires Exclusive(p, w) && CanWork(w, a) && SessionOk(p, w, s)
    ensures var (p', w', _) := PoolStep(p, w, tok, a); SessionOk(p', w', s)
  {
    // only these four move the kept session
    if a.TakeKept? || a.CloseIdle? || a.KeepSlot? || a.Open? {
      StepMovesKept(p, w, tok, a, s);
    }
  }

  lemma StepMovesKept(p: Pool, w: Work, tok: Token, a: PoolAction, s: Vendor)
    requires Exclusive(p, w) && CanWork(w, a) && SessionOk(p, w, s)
    requires a.TakeKept? || a.CloseIdle? || a.KeepSlot? || a.Open?
    ensures var (p', w', _) := PoolStep(p, w, tok, a); SessionOk(p', w', s)
  {
  }

  lemma PoolStepKeeps(p: Pool, w: Work, tok: Token, a: PoolAction)
    requires PoolInv(p, w, tok) && CanWork(w, a)
    ensures var (p', w', tok') := PoolStep(p, w, tok, a); PoolInv(p', w', tok') && tok <= tok'
  {
    var (p', w', _) := PoolStep(p, w, tok, a);
    forall s: Vendor ensures SessionOk(p', w', s) {
      StepMovesSession(p, w, tok, a, s);
    }
  }

  lemma BackgroundMovesSession(p: Pool, w: Work, a: BackgroundAction, s: Vendor)
    requires CanBackground(p, a) && SessionOk(p, w, s)
    ensures SessionOk(BackgroundStep(p, a), w, s)
  {
  }

  lemma BackgroundStepKeeps(p: Pool, w: Work, tok: Token, a: BackgroundAction)
    requires PoolInv(p, w, tok) && CanBackground(p, a)
    ensures PoolInv(BackgroundStep(p, a), w, tok)
  {
    forall s: Vendor { BackgroundMovesSession(p, w, a, s); }
  }

  /** Cancelling the operation drops what it had in hand. */
  lemma DropHandKeeps(p: Pool, w: Work, tok: Token)
    requires PoolInv(p, w, tok) && !w.Arming?
    ensures PoolInv(DropHand(p, w), Free, tok)
  {
    forall s: Vendor ensures SessionOk(DropHand(p, w), Free, s) {
      assert SessionOk(p, w, s);
    }
  }

  // ---- the turn ----

  ghost function WaitingOps(ops: map<Op, Phase>): set<Op> {
    set o | o in ops && ops[o].Waits()
  }

  /** The semaphore's permit is with its owner, and only the owner is past the semaphore. */
  ghost predicate PermitInv(l: Line) {
    && l.turn.gate.turn.available == (if l.owner.None? then 1 else 0)
    && (l.owner.Some? ==> l.owner.value in l.ops && l.ops[l.owner.value].HasPermit())
    && (forall o :: o in l.ops && l.ops[o].HasPermit() ==> l.owner == Some(o))
  }

  /** The busy flag is set exactly while the permit's owner has a guard, live or
      waiting for its cleanup. */
  predicate BusyFlag(l: Line) {
    l.turn.busy <==> l.owner.Some? && l.owner.value in l.ops && l.ops[l.owner.value].Marked()
  }

  /** While the watcher applies, no reload is pending. */
  predicate WatcherInv(l: Line) {
    l.watcher.Applying? ==>
      && l.watcher.o in l.ops && (l.ops[l.watcher.o].Holding? || l.ops[l.watcher.o].Cleared?)
      && !l.turn.reloadPending
  }

  /** The queue holds exactly the queued operations. */
  ghost predicate QueueMembers(l: Line) {
    var q := l.turn.gate.turn.queue;
    && (q != [] ==> l.owner.Some?)
    && (forall i :: 0 <= i < |q| ==> q[i] in l.ops && l.ops[q[i]].Queued? && q[i] in l.tickets)
    && (forall o :: o in l.ops && l.ops[o].Queued? ==> o in q)
    && (forall o :: o in l.tickets ==> l.tickets[o] < l.nextTicket && o in l.ops && !l.ops[o].Arrived?)
  }

  ghost function QueueTickets(l: Line): seq<nat>
    requires QueueMembers(l)
  {
    seq(|l.turn.gate.turn.queue|, i requires 0 <= i < |l.turn.gate.turn.queue| => l.tickets[l.turn.gate.turn.queue[i]])
  }

  ghost predicate Increasing(s: seq<nat>, bound: nat) {
    && (forall i :: 0 <= i < |s| ==> s[i] < bound)
    && (forall i, j :: 0 <= i < j < |s| ==> s[i] < s[j])
  }

  /** Tickets already served, followed by those still queued, are in arrival order:
      the queue is in order and nobody overtakes it. */
  ghost predicate QueueInv(l: Line) {
    QueueMembers(l) && Increasing(l.served + QueueTickets(l), l.nextTicket)
  }

  /** Whoever came through the queue and has the permit was served under its own ticket. */
  ghost predicate ServedInv(l: Line) {
    forall o :: o in l.tickets && o in l.ops && l.ops[o].HasPermit() ==> l.tickets[o] in l.served
  }

  ghost predicate WaitingInv(l: Line) {
    l.turn.gate.waiting == |WaitingOps(l.ops)|
  }

  function CurrentWork(l: Line): Work {
    if l.owner.Some? && l.owner.value in l.ops && l.ops[l.owner.value].Holding? then l.ops[l.owner.value].work else Free
  }

  ghost predicate LineInv(l: Line, tok: Token) {
    PermitInv(l) && BusyFlag(l) && WatcherInv(l) && QueueInv(l) && ServedInv(l) && WaitingInv(l)
    && PoolInv(l.pool, CurrentWork(l), tok)
  }

  // ---- queue lemmas ----

  lemma {:induction false} WithoutIsCut(q: seq<Op>, o: Op) returns (k: nat)
    ensures o in q ==> k < |q| && q[k] == o && WithoutOp(q, o) == q[..k] + q[k + 1..]
    ensures o !in q ==> WithoutOp(q, o) == q
  {
    if q == [] {
      k := 0;
    } else if q[0] == o {
      k := 0;
    } else {
      var k' := WithoutIsCut(q[1..], o);
      k := k' + 1;
      assert q == [q[0]] + q[1..];
      if o in q[1..] { CutOfTail(q, k'); }
    }
  }

  lemma CutOfTail(q: seq<Op>, k: nat)
    requires k + 1 < |q|
    ensures [q[0]] + (q[1..][..k] + q[1..][k + 1..]) == q[..k + 1] + q[k + 2..]
  {
  }

  lemma WaitingChange(ops: map<Op, Phase>, o: Op, ph: Phase)
    ensures |WaitingOps(ops[o := ph])| == |WaitingOps(ops)|
      + (if ph.Waits() then 1 else 0) - (if o in ops && ops[o].Waits() then 1 else 0)
  {
    var before := WaitingOps(ops);
    assert WaitingOps(ops[o := ph]) == if ph.Waits() then before + {o} else before - {o};
  }

  // ---- every step keeps each part ----

  ghost predicate TurnInv(l: Line) {
    PermitInv(l) && BusyFlag(l) && WatcherInv(l) && QueueInv(l)
  }

  /** A phase change that neither takes nor gives the permit and stays out of the queue. */
  lemma RelabelKeeps(l: Line, l': Line, o: Op, ph: Phase)
    requires PermitInv(l) && QueueInv(l)
    requires l'.ops == l.ops[o := ph] && l'.owner == l.owner && l'.turn.gate.turn == l.turn.gate.turn
    requires l'.tickets == l.tickets && l'.nextTicket == l.nextTicket && l'.served == l.served
    requires !ph.Queued? && (o in l.ops ==> !l.ops[o].Queued?) && (ph.Arrived? ==> o !in l.ops)
    requires ph.HasPermit() == (o in l.ops && l.ops[o].HasPermit())
    ensures PermitInv(l') && QueueInv(l')
  {
    assert QueueMembers(l');
    assert QueueTickets(l') == QueueTickets(l);
  }

  /** Nobody has the permit, and the semaphore is about to get it back. */
  ghost predicate Vacated(l: Line) {
    && l.turn.gate.turn.available == 0
    && (forall o :: o in l.ops ==> !l.ops[o].HasPermit())
    && QueueInv(l.(owner := Some(0)))
  }

  lemma ReturnKeepsMembers(l: Line)
    requires Vacated(l)
    ensures PermitInv(Return(l)) && QueueMembers(Return(l))
  {
    var q := l.turn.gate.turn.queue;
    if q != [] {
      assert forall i :: 0 <= i < |q[1..]| ==> q[1..][i] == q[i + 1];
      TicketsDistinct(l.(owner := Some(0)));
      forall o | o in l.ops && l.ops[o].Queued? && o != q[0] ensures o in q[1..] {
        assert o in [q[0]] + q[1..];
      }
    }
  }

  lemma TicketsDistinct(l: Line)
    requires QueueMembers(l) && Increasing(l.served + QueueTickets(l), l.nextTicket)
    ensures var q := l.turn.gate.turn.queue; forall i, j :: 0 <= i < j < |q| ==> q[i] != q[j]
  {
    var q, s, n := l.turn.gate.turn.queue, l.served + QueueTickets(l), |l.served|;
    forall i, j | 0 <= i < j < |q| ensures q[i] != q[j] {
      assert s[n + i] < s[n + j];
    }
  }

  ghost predicate TicketsOf(q: seq<Op>, t: seq<nat>, tickets: map<Op, nat>) {
    |t| == |q| && forall i :: 0 <= i < |q| ==> q[i] in tickets && t[i] == tickets[q[i]]
  }

  lemma ReturnTickets(l: Line)
    requires Vacated(l) && QueueMembers(Return(l)) && l.turn.gate.turn.queue != []
    ensures Return(l).served + QueueTickets(Return(l)) == l.served + QueueTickets(l.(owner := Some(0)))
  {
    var q, t, t' := l.turn.gate.turn.queue, QueueTickets(l.(owner := Some(0))), QueueTickets(Return(l));
  }

  lemma ReturnKeeps(l: Line)
    requires Vacated(l)
    ensures PermitInv(Return(l)) && QueueInv(Return(l))
  {
    ReturnKeepsMembers(l);
    if l.turn.gate.turn.queue != [] { ReturnTickets(l); }
  }

  lemma VacateKeeps(l: Line, o: Op, ph: Phase)
    requires PermitInv(l) && QueueInv(l) && o in l.ops && l.ops[o].HasPermit()
    requires !ph.HasPermit() && !ph.Queued? && !ph.Arrived?
    ensures Vacated(SetPhase(l, o, ph))
    ensures PermitInv(Return(SetPhase(l, o, ph))) && QueueInv(Return(SetPhase(l, o, ph)))
  {
    var l' := SetPhase(l, o, ph).(owner := Some(0));
    assert QueueMembers(l') && QueueTickets(l') == QueueTickets(l);
    ReturnKeeps(SetPhase(l, o, ph));
  }

  lemma LeaveKeepsMembers(l: Line, o: Op, k: nat)
    requires QueueInv(l) && o in l.ops && l.ops[o].Queued?
    requires var q := l.turn.gate.turn.queue; k < |q| && q[k] == o && WithoutOp(q, o) == q[..k] + q[k + 1..]
    ensures QueueMembers(SetPhase(l, o, Leaving).(turn := LeaveQueue(l.turn, o)))
  {
    var q := l.turn.gate.turn.queue;
    TicketsDistinct(l);
    CutMembers(q, k);
    var q' := WithoutOp(q, o);
    assert forall i :: 0 <= i < |q'| ==> q'[i] in q';
  }

  lemma CutMembers(q: seq<Op>, k: nat)
    requires k < |q| && forall i, j :: 0 <= i < j < |q| ==> q[i] != q[j]
    ensures forall x :: x in q[..k] + q[k + 1..] <==> x in q && x != q[k]
  {
    assert q == q[..k] + [q[k]] + q[k + 1..];
  }

  lemma {:induction false} CutAt<T>(q: seq<T>, k: nat, i: nat)
    requires k < |q| && i < |q| - 1
    ensures (q[..k] + q[k + 1..])[i] == if i < k then q[i] else q[i + 1]
  {
  }

  lemma TicketsOfCut(q: seq<Op>, t: seq<nat>, t': seq<nat>, tickets: map<Op, nat>, k: nat)
    requires k < |q| && TicketsOf(q, t, tickets) && TicketsOf(q[..k] + q[k + 1..], t', tickets)
    ensures t' == t[..k] + t[k + 1..]
  {
    var cut := t[..k] + t[k + 1..];
    forall i | 0 <= i < |t'| ensures t'[i] == cut[i] {
      CutAt(q, k, i);
      CutAt(t, k, i);
    }
  }

  lemma LeaveTickets(l: Line, l': Line, k: nat)
    requires QueueMembers(l) && QueueMembers(l') && l'.tickets == l.tickets && k < |l.turn.gate.turn.queue|
    requires var q := l.turn.gate.turn.queue; l'.turn.gate.turn.queue == q[..k] + q[k + 1..]
    ensures QueueTickets(l') == QueueTickets(l)[..k] + QueueTickets(l)[k + 1..]
  {
    TicketsOfCut(l.turn.gate.turn.queue, QueueTickets(l), QueueTickets(l'), l.tickets, k);
  }

  lemma LeaveKeeps(l: Line, o: Op)
    requires PermitInv(l) && QueueInv(l) && o in l.ops && l.ops[o].Queued?
    ensures var l' := SetPhase(l, o, Leaving).(turn := LeaveQueue(l.turn, o)); PermitInv(l') && QueueInv(l')
  {
    var k := WithoutIsCut(l.turn.gate.turn.queue, o);
    LeaveKeepsMembers(l, o, k);
    LeaveTickets(l, SetPhase(l, o, Leaving).(turn := LeaveQueue(l.turn, o)), k);
    IncreasingCut(l.served, QueueTickets(l), l.nextTicket, k);
  }

  lemma IncreasingCut(s: seq<nat>, t: seq<nat>, bound: nat, k: nat)
    requires Increasing(s + t, bound) && k < |t|
    ensures Increasing(s + (t[..k] + t[k + 1..]), bound)
  {
    var u := s + (t[..k] + t[k + 1..]);
    forall i, j | 0 <= i < j < |u| ensures u[i] < u[j] {
      var i', j' := if i < |s| + k then i else i + 1, if j < |s| + k then j else j + 1;
      assert u[i] == (s + t)[i'] && u[j] == (s + t)[j'];
    }
    forall i | 0 <= i < |u| ensures u[i] < bound {
      assert u[i] == (s + t)[if i < |s| + k then i else i + 1];
    }
  }

  lemma PollKeeps(l: Line, o: Op)
    requires PermitInv(l) && QueueInv(l) && o in l.ops && l.ops[o].Arrived?
    ensures PermitInv(PollStep(l, o)) && QueueInv(PollStep(l, o))
  {
    PollPermit(l, o);
    PollTickets(l, o);
  }

  lemma PollPermit(l: Line, o: Op)
    requires PermitInv(l) && QueueMembers(l) && o in l.ops && l.ops[o].Arrived?
    ensures PermitInv(PollStep(l, o)) && QueueMembers(PollStep(l, o))
  {
  }

  lemma PollTickets(l: Line, o: Op)
    requires PermitInv(l) && QueueMembers(l) && o in l.ops && l.ops[o].Arrived? && QueueMembers(PollStep(l, o))
    ensures PollStep(l, o).served + QueueTickets(PollStep(l, o)) == l.served + QueueTickets(l) + [l.nextTicket]
  {
    var l' := PollStep(l, o);
    if l.turn.gate.turn.available > 0 {
      assert QueueTickets(l) == [] && QueueTickets(l') == [];
    } else {
      assert QueueTickets(l') == QueueTickets(l) + [l.nextTicket];
      assert l.served + (QueueTickets(l) + [l.nextTicket]) == l.served + QueueTickets(l) + [l.nextTicket];
    }
  }

  lemma TryKeeps(l: Line, o: Op)
    requires PermitInv(l) && QueueInv(l) && o !in l.ops
    ensures PermitInv(TryStep(l, o)) && QueueInv(TryStep(l, o))
  {
    assert QueueMembers(TryStep(l, o)) && QueueTickets(TryStep(l, o)) == QueueTickets(l);
  }

  predicate MovesPermit(a: Action) {
    a.Poll? || a.GiveUp? || a.CancelUnmarked? || a.Try? || a.WatcherTry? || a.DropPermit?
  }

  lemma StepRelabels(l: Line, tok: Token, a: Action)
    requires TurnInv(l) && Enabled(l, a) && !MovesPermit(a)
    ensures var l' := Step(l, tok, a).0; PermitInv(l') && QueueInv(l')
  {
    var l' := Step(l, tok, a).0;
    if a.QueueReload? || a.TakeReload? || a.Background? {
      assert QueueMembers(l') && QueueTickets(l') == QueueTickets(l);
    } else {
      RelabelKeeps(l, l', a.o, l'.ops[a.o]);
    }
  }

  lemma StepMovesPermit(l: Line, tok: Token, a: Action)
    requires TurnInv(l) && Enabled(l, a) && MovesPermit(a)
    ensures var l' := Step(l, tok, a).0; PermitInv(l') && QueueInv(l')
  {
    match a
    case Poll(o) => PollKeeps(l, o);
    case GiveUp(o) => if l.ops[o].Queued? { LeaveKeeps(l, o); } else { VacateKeeps(l, o, Leaving); }
    case CancelUnmarked(o) => VacateKeeps(l, o, Done);
    case Try(o) => TryKeeps(l, o);
    case WatcherTry(o) => TryKeeps(l, o); WatcherIrrelevant(TryStep(l, o), Step(l, tok, a).0.watcher);
    case DropPermit(o) =>
      VacateKeeps(l, o, Done);
      WatcherIrrelevant(Return(SetPhase(l, o, Done)), Step(l, tok, a).0.watcher);
  }

  lemma WatcherIrrelevant(l: Line, w: Watcher)
    requires PermitInv(l) && QueueInv(l)
    ensures PermitInv(l.(watcher := w)) && QueueInv(l.(watcher := w))
  {
    assert QueueTickets(l.(watcher := w)) == QueueTickets(l);
  }

  lemma StepPermitAndQueue(l: Line, tok: Token, a: Action)
    requires TurnInv(l) && Enabled(l, a)
    ensures var l' := Step(l, tok, a).0; PermitInv(l') && QueueInv(l')
  {
    if MovesPermit(a) { StepMovesPermit(l, tok, a); } else { StepRelabels(l, tok, a); }
  }

  lemma StepBusy(l: Line, tok: Token, a: Action)
    requires TurnInv(l) && Enabled(l, a)
    ensures BusyFlag(Step(l, tok, a).0)
  {
    if !MovesPermit(a) { StepBusyInPlace(l, tok, a); }
  }

  lemma StepBusyInPlace(l: Line, tok: Token, a: Action)
    requires PermitInv(l) && BusyFlag(l) && Enabled(l, a) && !MovesPermit(a)
    ensures BusyFlag(Step(l, tok, a).0)
  {
  }

  lemma StepWatcher(l: Line, tok: Token, a: Action)
    requires TurnInv(l) && Enabled(l, a)
    ensures WatcherInv(Step(l, tok, a).0)
  {
    if !MovesPermit(a) { StepWatcherInPlace(l, tok, a); }
  }

  lemma StepWatcherInPlace(l: Line, tok: Token, a: Action)
    requires PermitInv(l) && WatcherInv(l) && Enabled(l, a) && !MovesPermit(a)
    ensures WatcherInv(Step(l, tok, a).0)
  {
  }

  lemma ReturnWaiting(l: Line)
    requires QueueMembers(l.(owner := Some(0))) && WaitingInv(l)
    ensures WaitingInv(Return(l))
  {
    var q := l.turn.gate.turn.queue;
    if q != [] { WaitingChange(l.ops, q[0], Granted); }
  }

  lemma VacateWaiting(l: Line, o: Op, ph: Phase)
    requires PermitInv(l) && QueueInv(l) && WaitingInv(l) && o in l.ops && l.ops[o].HasPermit()
    requires !ph.HasPermit() && !ph.Queued? && !ph.Arrived? && ph.Waits() == l.ops[o].Waits()
    ensures WaitingInv(Return(SetPhase(l, o, ph)))
  {
    VacateKeeps(l, o, ph);
    WaitingChange(l.ops, o, ph);
    ReturnWaiting(SetPhase(l, o, ph));
  }

  lemma StepWaiting(l: Line, tok: Token, a: Action)
    requires TurnInv(l) && WaitingInv(l) && Enabled(l, a)
    ensures WaitingInv(Step(l, tok, a).0)
  {
    if a.GiveUp? && !l.ops[a.o].Queued? {
      VacateWaiting(l, a.o, Leaving);
    } else if a.CancelUnmarked? || a.DropPermit? {
      VacateWaiting(l, a.o, Done);
    } else if !a.QueueReload? && !a.TakeReload? && !a.Background? {
      RelabelWaiting(l, tok, a);
    }
  }

  lemma RelabelWaiting(l: Line, tok: Token, a: Action)
    requires WaitingInv(l) && Enabled(l, a)
    requires !a.CancelUnmarked? && !a.DropPermit? && (a.GiveUp? ==> l.ops[a.o].Queued?)
    requires !a.QueueReload? && !a.TakeReload? && !a.Background?
    ensures WaitingInv(Step(l, tok, a).0)
  {
    WaitingChange(l.ops, a.o, Step(l, tok, a).0.ops[a.o]);
  }

  lemma {:induction false} StepKeeps(l: Line, tok: Token, a: Action)
    requires LineInv(l, tok) && Enabled(l, a)
    ensures var (l', tok') := Step(l, tok, a); LineInv(l', tok') && tok <= tok'
  {
    var (l', tok') := Step(l, tok, a);
    StepPermitAndQueue(l, tok, a);
    StepBusy(l, tok, a);
    StepWatcher(l, tok, a);
    StepWaiting(l, tok, a);
    StepPool(l, tok, a);
  }

  /** Seen from the pool, a step is a pool step, a background step, a dropped hand, or nothing. */
  lemma StepPool(l: Line, tok: Token, a: Action)
    requires TurnInv(l) && PoolInv(l.pool, CurrentWork(l), tok) && Enabled(l, a)
    requires TurnInv(Step(l, tok, a).0)
    ensures var (l', tok') := Step(l, tok, a); PoolInv(l'.pool, CurrentWork(l'), tok') && tok <= tok'
  {
    if a.WorkOn? || a.Background? || a.DropGuard? || a.Clear? {
      StepTouchesPool(l, tok, a);
    } else {
      SameWork(l, tok, a);
    }
  }

  lemma StepTouchesPool(l: Line, tok: Token, a: Action)
    requires PermitInv(l) && PoolInv(l.pool, CurrentWork(l), tok) && Enabled(l, a)
    requires a.WorkOn? || a.Background? || a.DropGuard? || a.Clear?
    ensures var (l', tok') := Step(l, tok, a); PoolInv(l'.pool, CurrentWork(l'), tok') && tok <= tok'
  {
    match a
    case WorkOn(o, wa) => PoolStepKeeps(l.pool, l.ops[o].work, tok, wa);
    case Background(bg) => BackgroundStepKeeps(l.pool, CurrentWork(l), tok, bg);
    case DropGuard(o) => DropHandKeeps(l.pool, l.ops[o].work, tok);
    case Clear(o) => ForgetWork(l.pool, CurrentWork(l), tok);
  }

  lemma SameWork(l: Line, tok: Token, a: Action)
    requires TurnInv(l) && Enabled(l, a) && TurnInv(Step(l, tok, a).0)
    requires !a.WorkOn? && !a.Background? && !a.DropGuard? && !a.Clear?
    ensures var (l', tok') := Step(l, tok, a);
      l'.pool == l.pool && tok' == tok && CurrentWork(l') == CurrentWork(l)
  {
    if MovesPermit(a) { SameWorkMoved(l, tok, a); } else { SameWorkRelabel(l, tok, a); }
  }

  lemma SameWorkMoved(l: Line, tok: Token, a: Action)
    requires PermitInv(l) && QueueMembers(l) && Enabled(l, a) && MovesPermit(a) && PermitInv(Step(l, tok, a).0)
    ensures var (l', tok') := Step(l, tok, a);
      l'.pool == l.pool && tok' == tok && CurrentWork(l') == CurrentWork(l)
  {
  }

  lemma SameWorkRelabel(l: Line, tok: Token, a: Action)
    requires PermitInv(l) && Enabled(l, a) && !MovesPermit(a)
    requires !a.WorkOn? && !a.Background? && !a.DropGuard? && !a.Clear?
    ensures var (l', tok') := Step(l, tok, a);
      l'.pool == l.pool && tok' == tok && CurrentWork(l') == CurrentWork(l)
  {
  }

  lemma ForgetWork(p: Pool, w: Work, tok: Token)
    requires PoolInv(p, w, tok) && (w.Free? || w.ApplyReady?)
    ensures PoolInv(p, Free, tok)
  {
    forall s: Vendor ensures SessionOk(p, Free, s) {
      assert SessionOk(p, w, s);
    }
  }

  // ---- what is only ever added ----

  /** Tokens kept open before stay as they were, a new one is the counter's value, and
      the settings a session was opened under never change. */
  ghost predicate Grows(p: Pool, p': Pool, tok: Token) {
    && (forall t :: t in p.keepOpens ==> t in p'.keepOpens && p'.keepOpens[t] == p.keepOpens[t])
    && (forall t :: t in p'.keepOpens ==> t in p.keepOpens || t == tok)
    && (forall s :: s in p.openedUnder ==> s in p'.openedUnder && p'.openedUnder[s] == p.openedUnder[s])
  }

  lemma StepGrows(l: Line, tok: Token, a: Action)
    requires PoolInv(l.pool, CurrentWork(l), tok) && Enabled(l, a)
    ensures Grows(l.pool, Step(l, tok, a).0.pool, tok)
  {
    if a.WorkOn? { PoolGrows(l.pool, CurrentWork(l), l.ops[a.o].work, tok, a.work); }
  }

  lemma PoolGrows(p: Pool, held: Work, w: Work, tok: Token, a: PoolAction)
    requires PoolInv(p, held, tok) && CanWork(w, a)
    ensures Grows(p, PoolStep(p, w, tok, a).0, tok)
  {
  }
}
