/** The turn and the session pool together, for one switch: every operation as a
    state machine whose steps are the lock-held sections and the completions of
    awaited I/O. A task may be cancelled wherever the source awaits. */
module Protocol {
  import opened Basics
  import opened Turnstile
  import opened Sessions

  // ---- what one guard-holding operation is doing with sessions ----

  datatype Work =
    | Free                                        // no session in hand
    | Resuming(s: Vendor, fp: Fingerprint)        // checkout: asking the kept session
    | StaleClosing(s: Vendor, fp: Fingerprint)    // checkout: closing an unusable one
    | Opening(fp: Fingerprint)                    // checkout: opening a fresh one
    | InUse(s: Vendor, fp: Fingerprint)           // checked out
    | Keeping(s: Vendor, fp: Fingerprint)         // release: waiting for the pool's lock
    | ReplacedClosing(s: Vendor, token: Token)    // release: closing a session it replaced
    | Arming(token: Token)                        // release: about to spawn the idle timer
    | Closing(s: Vendor)                          // discard, or release without reuse
    | ApplyFreeing(s: Vendor)                     // apply: closing the kept session
    | ApplyReady                                  // apply: no session of its own open
    | ApplyOpen(s: Vendor)                        // apply: own session open
    | ApplyClosing(s: Vendor)                     // apply: disconnecting it
  {
    /** The session this operation has in hand. */
    ghost function Hand(): set<Vendor> {
      match this
      case Free => {} case Opening(_) => {} case Arming(_) => {} case ApplyReady => {}
      case _ => {s}
    }

    /** `disconnect` has been called on the session in hand. */
    predicate Disconnecting() {
      StaleClosing? || ReplacedClosing? || Closing? || ApplyFreeing? || ApplyClosing?
    }

    predicate Applying() { ApplyFreeing? || ApplyReady? || ApplyOpen? || ApplyClosing? }
  }

  /** The pool's state for this switch, and where every session ever opened for it is. */
  datatype Pool = Pool(
    slot: Option<Slot>,
    timers: set<Token>,                    // idle timers not yet fired
    closers: set<Vendor>,                  // being closed by a timer or by an unguarded close_idle
    openCount: nat,                        // sessions 0 .. openCount-1 were opened
    closed: set<Vendor>,
    dropped: set<Vendor>,                  // dropped by a cancelled task
    disconnects: multiset<Vendor>,         // calls of `disconnect`
    openedUnder: map<Vendor, Fingerprint>,
    keepOpens: map<Token, Vendor>)         // which session each token kept open

  datatype PoolAction =
    | TakeKept(fp: Fingerprint) | Resume(ok: bool) | StaleClosed | Open(ok: bool)
    | Release(reusable: bool) | Discard | KeepSlot | ReplacedClosed | Arm | Closed
    | CloseIdle | ApplyFreed | ApplyConnect | ApplyDisconnect | ApplyDisconnected
    | Abandon                              // an inner timeout or error: the guard survives, the session is dropped

  /** Whether an operation busy with `w` can do `a` next. */
  predicate CanWork(w: Work, a: PoolAction) {
    match a
    case TakeKept(_) => w.Free?
    case Resume(_) => w.Resuming?
    case StaleClosed => w.StaleClosing?
    case Open(_) => w.Opening?
    case Release(_) => w.InUse?
    case Discard => w.InUse?
    case KeepSlot => w.Keeping?
    case ReplacedClosed => w.ReplacedClosing?
    case Arm => w.Arming?
    case Closed => w.Closing?
    case CloseIdle => w.Free?
    case ApplyFreed => w.ApplyFreeing?
    case ApplyConnect => w.ApplyReady?
    case ApplyDisconnect => w.ApplyOpen?
    case ApplyDisconnected => w.ApplyClosing?
    case Abandon => !w.Arming?
  }

  function StartDisconnect(p: Pool, s: Vendor): Pool {
    p.(disconnects := p.disconnects + multiset{s})
  }

  function OpenFresh(p: Pool, fp: Fingerprint): Pool {
    p.(openCount := p.openCount + 1, openedUnder := p.openedUnder[p.openCount := fp])
  }

  ghost function DropHand(p: Pool, w: Work): Pool {
    p.(dropped := p.dropped + w.Hand())
  }

  /** One step of an operation that holds the turn: pool, its work, and the token counter. */
  ghost function PoolStep(p: Pool, w: Work, tok: Token, a: PoolAction): (Pool, Work, Token)
    requires CanWork(w, a)
  {
    match a
    case TakeKept(fp) =>
      var (slot, kept) := Take(p.slot);
      if kept.None? then (p.(slot := slot), Opening(fp), tok)
      else if kept.value.fingerprint == fp then (p.(slot := slot), Resuming(kept.value.vendor, fp), tok)
      else (StartDisconnect(p.(slot := slot), kept.value.vendor), StaleClosing(kept.value.vendor, fp), tok)
    case Resume(ok) =>
      if ok then (p, InUse(w.s, w.fp), tok) else (StartDisconnect(p, w.s), StaleClosing(w.s, w.fp), tok)
    case StaleClosed => (p.(closed := p.closed + {w.s}), Opening(w.fp), tok)
    case Open(ok) =>
      if ok then (OpenFresh(p, w.fp), InUse(p.openCount, w.fp), tok) else (p, Free, tok)
    case Release(reusable) =>
      if reusable then (p, Keeping(w.s, w.fp), tok) else (StartDisconnect(p, w.s), Closing(w.s), tok)
    case Discard => (StartDisconnect(p, w.s), Closing(w.s), tok)
    case KeepSlot =>
      var p' := p.(slot := Some(Keep(w.s, w.fp, tok)), keepOpens := p.keepOpens[tok := w.s]);
      if p.slot.None? then (p', Arming(tok), tok + 1)
      else (StartDisconnect(p', p.slot.value.vendor), ReplacedClosing(p.slot.value.vendor, tok), tok + 1)
    case ReplacedClosed => (p.(closed := p.closed + {w.s}), Arming(w.token), tok)
    case Arm => (p.(timers := p.timers + {w.token}), Free, tok)
    case Closed => (p.(closed := p.closed + {w.s}), Free, tok)
    case CloseIdle =>
      var (slot, kept) := Take(p.slot);
      if kept.None? then (p.(slot := slot), ApplyReady, tok)
      else (StartDisconnect(p.(slot := slot), kept.value.vendor), ApplyFreeing(kept.value.vendor), tok)
    case ApplyFreed => (p.(closed := p.closed + {w.s}), ApplyReady, tok)
    case ApplyConnect =>
      // apply's own session is never offered for reuse, so its settings are not recorded
      (p.(openCount := p.openCount + 1), ApplyOpen(p.openCount), tok)
    case ApplyDisconnect => (StartDisconnect(p, w.s), ApplyClosing(w.s), tok)
    case ApplyDisconnected => (p.(closed := p.closed + {w.s}), ApplyReady, tok)
    case Abandon => (DropHand(p, w), if w.Applying() then ApplyReady else Free, tok)
  }

  datatype BackgroundAction =
    | Fire(token: Token)          // an idle timer
    | StrayCloseIdle              // get_config and preview_diff close the kept session without a turn
    | CloserDone(s: Vendor)
    | CloserDropped(s: Vendor)    // the closing request was cancelled

  predicate CanBackground(p: Pool, a: BackgroundAction) {
    match a
    case Fire(token) => token in p.timers
    case StrayCloseIdle => true
    case CloserDone(s) => s in p.closers
    case CloserDropped(s) => s in p.closers
  }

  function CloseInBackground(p: Pool, r: (Option<Slot>, Option<Slot>)): Pool {
    if r.1.None? then p.(slot := r.0)
    else StartDisconnect(p, r.1.value.vendor).(slot := r.0, closers := p.closers + {r.1.value.vendor})
  }

  function BackgroundStep(p: Pool, a: BackgroundAction): Pool
    requires CanBackground(p, a)
  {
    match a
    case Fire(token) => CloseInBackground(p, TakeIfToken(p.slot, token)).(timers := p.timers - {token})
    case StrayCloseIdle => CloseInBackground(p, Take(p.slot))
    case CloserDone(s) => p.(closers := p.closers - {s}, closed := p.closed + {s})
    case CloserDropped(s) => p.(closers := p.closers - {s}, dropped := p.dropped + {s})
  }

  // ---- the whole line of one switch ----

  datatype Phase =
    | Arrived                 // counted as waiting, semaphore not polled yet
    | Queued                  // in the semaphore's queue
    | Granted                 // the permit is assigned, the waiter still counted
    | Leaving                 // gave up: out of the queue, still counted
    | Unmarked                // has the permit, busy flag not set yet
    | Holding(work: Work)     // the guard is live
    | CleaningUp              // the guard was dropped, its cleanup task has not run yet
    | Cleared                 // busy flag cleared, permit not dropped yet
    | Done
  {
    predicate HasPermit() { Granted? || Unmarked? || Holding? || CleaningUp? || Cleared? }
    predicate Waits() { Arrived? || Queued? || Granted? || Leaving? }
    predicate Marked() { Holding? || CleaningUp? }
  }

  /** The file watcher runs in one task, so it works on at most one guard at a time. */
  datatype Watcher = Watching | Applying(o: Op) | Refused

  datatype Line = Line(
    turn: Turn,
    owner: Option<Op>,            // whom the semaphore's permit was given to
    ops: map<Op, Phase>,
    watcher: Watcher,
    pool: Pool,
    tickets: map<Op, nat>,        // arrival order at the semaphore
    nextTicket: nat,
    served: seq<nat>)             // tickets in the order in which they got the permit

  datatype Action =
    | Arrive(o: Op) | Poll(o: Op) | Admit(o: Op) | Mark(o: Op) | GiveUp(o: Op) | DropWaiting(o: Op)
    | CancelUnmarked(o: Op) | Try(o: Op) | WatcherTry(o: Op) | QueueReload | TakeReload(o: Op)
    | Clear(o: Op) | DropPermit(o: Op) | DropGuard(o: Op)
    | WorkOn(o: Op, work: PoolAction) | Background(bg: BackgroundAction)

  predicate Enabled(l: Line, a: Action) {
    match a
    case Arrive(o) => o !in l.ops
    case Poll(o) => o in l.ops && l.ops[o].Arrived?
    case Admit(o) => o in l.ops && l.ops[o].Granted?
    case Mark(o) => o in l.ops && l.ops[o].Unmarked?
    case GiveUp(o) => o in l.ops && (l.ops[o].Queued? || l.ops[o].Granted?)
    case DropWaiting(o) => o in l.ops && l.ops[o].Leaving?
    case CancelUnmarked(o) => o in l.ops && l.ops[o].Unmarked?
    case Try(o) => o !in l.ops
    case WatcherTry(o) => o !in l.ops && l.watcher.Watching?
    case QueueReload => l.watcher.Refused?
    case TakeReload(o) => o in l.ops && l.ops[o].Holding? && l.watcher == Applying(o)
    case Clear(o) =>
      o in l.ops && (l.ops[o].CleaningUp? || (l.ops[o].Holding? && (l.ops[o].work.Free? || l.ops[o].work.ApplyReady?)))
    case DropPermit(o) => o in l.ops && l.ops[o].Cleared?
    case DropGuard(o) => o in l.ops && l.ops[o].Holding? && !l.ops[o].work.Arming?
    case WorkOn(o, w) => o in l.ops && l.ops[o].Holding? && CanWork(l.ops[o].work, w)
    case Background(bg) => CanBackground(l.pool, bg)
  }

  function SetPhase(l: Line, o: Op, ph: Phase): Line { l.(ops := l.ops[o := ph]) }

  /** The permit comes back; a waiter it is handed to becomes its owner. */
  function Return(l: Line): Line {
    var (turn, next) := ReturnPermit(l.turn);
    if next.Some? && next.value in l.tickets
    then SetPhase(l, next.value, Granted).(turn := turn, owner := next, served := l.served + [l.tickets[next.value]])
    else l.(turn := turn, owner := next)
  }

  /** The watcher moves on once its guard is gone. */
  function WatcherDone(l: Line, o: Op): Line {
    if l.watcher == Applying(o) then l.(watcher := Watching) else l
  }

  function TryStep(l: Line, o: Op): Line {
    var (turn, ok) := TryAcquire(l.turn);
    if ok then SetPhase(l, o, Holding(Free)).(turn := turn, owner := Some(o))
    else SetPhase(l, o, Done).(turn := turn)
  }

  function PollStep(l: Line, o: Op): Line {
    var (turn, ok) := PollTurn(l.turn, o);
    var l' := l.(turn := turn, tickets := l.tickets[o := l.nextTicket], nextTicket := l.nextTicket + 1);
    if ok then SetPhase(l', o, Granted).(owner := Some(o), served := l.served + [l.nextTicket])
    else SetPhase(l', o, Queued)
  }

  ghost function Step(l: Line, tok: Token, a: Action): (Line, Token)
    requires Enabled(l, a)
  {
    match a
    case Arrive(o) => (SetPhase(l, o, Arrived).(turn := AddWaiting(l.turn, 1)), tok)
    case Poll(o) => (PollStep(l, o), tok)
    case Admit(o) => (SetPhase(l, o, Unmarked).(turn := AddWaiting(l.turn, -1)), tok)
    case Mark(o) => (SetPhase(l, o, Holding(Free)).(turn := l.turn.(busy := true)), tok)
    case GiveUp(o) =>
      (if l.ops[o].Queued? then SetPhase(l, o, Leaving).(turn := LeaveQueue(l.turn, o))
       else Return(SetPhase(l, o, Leaving)), tok)
    case DropWaiting(o) => (SetPhase(l, o, Done).(turn := AddWaiting(l.turn, -1)), tok)
    case CancelUnmarked(o) => (Return(SetPhase(l, o, Done)), tok)
    case Try(o) => (TryStep(l, o), tok)
    case WatcherTry(o) =>
      (TryStep(l, o).(watcher := if TryAcquire(l.turn).1 then Applying(o) else Refused), tok)
    case QueueReload => (l.(turn := l.turn.(reloadPending := true), watcher := Watching), tok)
    case TakeReload(o) => (l.(turn := l.turn.(reloadPending := false)), tok)
    case Clear(o) => (SetPhase(l, o, Cleared).(turn := l.turn.(busy := false)), tok)
    case DropPermit(o) => (WatcherDone(Return(SetPhase(l, o, Done)), o), tok)
    case DropGuard(o) => (WatcherDone(SetPhase(l, o, CleaningUp).(pool := DropHand(l.pool, l.ops[o].work)), o), tok)
    case WorkOn(o, wa) =>
      var (p, w, tok') := PoolStep(l.pool, l.ops[o].work, tok, wa);
      (SetPhase(l, o, Holding(w)).(pool := p), tok')
    case Background(bg) => (l.(pool := BackgroundStep(l.pool, bg)), tok)
  }

  const EMPTY_POOL := Pool(None, {}, {}, 0, {}, {}, multiset{}, map[], map[])
  const START := Line(FRESH_TURN, None, map[], Watching, EMPTY_POOL, map[], 0, [])
}
