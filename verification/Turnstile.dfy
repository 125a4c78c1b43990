/** The per-switch turnstile (switch-configurator/src/status.rs).
    The functions give one lock-held section each, on the state of one switch;
    the classes below them carry the mutable fields and are proved against them. */
module Turnstile {
  import opened Basics

  /** Identity of one operation: one call of an acquire method, and the guard it may yield. */
  type Op = nat

  /** tokio's semaphore, taken as given: a permit count and waiters in arrival order. */
  datatype Semaphore = Semaphore(available: nat, queue: seq<Op>)

  datatype SwitchGate = SwitchGate(turn: Semaphore, waiting: int)

  const FRESH_GATE := SwitchGate(Semaphore(1, []), 0)

  /** Everything the tracker holds about one switch's turn. */
  datatype Turn = Turn(busy: bool, reloadPending: bool, gate: SwitchGate)

  const FRESH_TURN := Turn(false, false, FRESH_GATE)

  /** A queue without the (first) entry `o`, the others in their order. */
  function WithoutOp(q: seq<Op>, o: Op): seq<Op> {
    if q == [] then []
    else if q[0] == o then q[1..]
    else [q[0]] + WithoutOp(q[1..], o)
  }

  // ---- the lock-held sections ----

  /** First poll of `acquire_owned`: a free permit is taken, otherwise the caller queues. */
  function PollTurn(t: Turn, o: Op): (Turn, bool) {
    var s := t.gate.turn;
    if s.available > 0
    then (t.(gate := t.gate.(turn := s.(available := s.available - 1))), true)
    else (t.(gate := t.gate.(turn := s.(queue := s.queue + [o]))), false)
  }

  /** A permit comes back: it is handed to the head waiter, if there is one. */
  function ReturnPermit(t: Turn): (Turn, Option<Op>) {
    var s := t.gate.turn;
    if s.queue == []
    then (t.(gate := t.gate.(turn := s.(available := s.available + 1))), None)
    else (t.(gate := t.gate.(turn := s.(queue := s.queue[1..]))), Some(s.queue[0]))
  }

  function LeaveQueue(t: Turn, o: Op): Turn {
    t.(gate := t.gate.(turn := t.gate.turn.(queue := WithoutOp(t.gate.turn.queue, o))))
  }

  function AddWaiting(t: Turn, n: int): Turn {
    t.(gate := t.gate.(waiting := t.gate.waiting + n))
  }

  /** `try_acquire_configuring`: one write-lock section. */
  function TryAcquire(t: Turn): (Turn, bool) {
    if t.busy || t.reloadPending || t.gate.turn.available == 0 then (t, false)
    else (t.(busy := true, gate := t.gate.(turn := t.gate.turn.(available := t.gate.turn.available - 1))), true)
  }

  // ---- the mutable tracker ----

  class StatusTracker {
    var currentlyConfiguring: set<string>
    var pendingConfigReload: set<string>
    var gates: map<string, SwitchGate>

    /** What the tracker says about one switch. A gate that was never asked for is a fresh one. */
    ghost function View(id: string): Turn
      reads this
    {
      Turn(id in currentlyConfiguring, id in pendingConfigReload, if id in gates then gates[id] else FRESH_GATE)
    }

    constructor ()
      ensures forall id :: View(id) == FRESH_TURN
    {
      currentlyConfiguring, pendingConfigReload, gates := {}, {}, map[];
    }

    /** `gates.entry(id).or_insert_with(SwitchGate::new)`. */
    method Gate(id: string) returns (gate: SwitchGate)
      modifies this`gates
      ensures gate == View(id).gate && id in gates && gates[id] == gate
      ensures forall other :: View(other) == old(View(other))
    {
      if id !in gates { gates := gates[id := FRESH_GATE]; }
      gate := gates[id];
    }

    method SetCurrentlyConfiguring(id: string)
      modifies this`currentlyConfiguring
      ensures View(id) == old(View(id)).(busy := true)
      ensures forall other | other != id :: View(other) == old(View(other))
    {
      currentlyConfiguring := currentlyConfiguring + {id};
    }

    method ClearCurrentlyConfiguring(id: string)
      modifies this`currentlyConfiguring
      ensures View(id) == old(View(id)).(busy := false)
      ensures forall other | other != id :: View(other) == old(View(other))
    {
      currentlyConfiguring := currentlyConfiguring - {id};
    }

    method TryAcquireConfiguring(id: string) returns (guard: Option<ConfiguringGuard>)
      modifies this
      ensures (View(id), guard.Some?) == TryAcquire(old(View(id)))
      ensures var was := old(View(id));
        guard.Some? <==> !was.busy && !was.reloadPending && was.gate.turn.available > 0
      ensures guard.Some? ==> View(id).busy && View(id).gate.turn.available == old(View(id)).gate.turn.available - 1
      ensures guard.Some? ==>
        fresh(guard.value) && guard.value.Live() && guard.value.tracker == this && guard.value.switchId == id
      ensures forall other | other != id :: View(other) == old(View(other))
    {
      if id in currentlyConfiguring || id in pendingConfigReload { return None; }
      var gate := Gate(id);
      if gate.turn.available == 0 { return None; }
      gates := gates[id := gate.(turn := gate.turn.(available := gate.turn.available - 1))];
      currentlyConfiguring := currentlyConfiguring + {id};
      var g := new ConfiguringGuard(this, id);
      guard := Some(g);
    }

    /** `acquire_configuring_queued` up to and including its first poll of the semaphore:
        the waiter is counted, then takes the free permit or joins the queue. */
    method Enqueue(id: string, o: Op) returns (granted: bool)
      modifies this`gates
      ensures (View(id), granted) == PollTurn(AddWaiting(old(View(id)), 1), o)
      ensures granted <==> old(View(id)).gate.turn.available > 0
      ensures View(id).gate.turn.queue == old(View(id)).gate.turn.queue + if granted then [] else [o]
      ensures forall other | other != id :: View(other) == old(View(other))
    {
      var gate := Gate(id);
      gate := gate.(waiting := gate.waiting + 1);
      granted := gate.turn.available > 0;
      if granted {
        gate := gate.(turn := gate.turn.(available := gate.turn.available - 1));
      } else {
        gate := gate.(turn := gate.turn.(queue := gate.turn.queue + [o]));
      }
      gates := gates[id := gate];
    }

    /** The rest of `acquire_configuring_queued` once the permit is there: the waiter stops
        being counted, the switch is marked busy and the guard is built. */
    method Admit(id: string) returns (guard: ConfiguringGuard)
      modifies this
      ensures View(id) == AddWaiting(old(View(id)), -1).(busy := true)
      ensures fresh(guard) && guard.Live() && guard.tracker == this && guard.switchId == id
      ensures forall other | other != id :: View(other) == old(View(other))
    {
      var gate := Gate(id);
      gates := gates[id := gate.(waiting := gate.waiting - 1)];
      SetCurrentlyConfiguring(id);
      guard := new ConfiguringGuard(this, id);
    }

    /** A queued waiter times out or is cancelled: it leaves the line and stops being counted. */
    method GiveUp(id: string, o: Op)
      modifies this`gates
      ensures View(id) == AddWaiting(LeaveQueue(old(View(id)), o), -1)
      ensures forall other | other != id :: View(other) == old(View(other))
    {
      var gate := Gate(id);
      gates := gates[id :=
        gate.(turn := gate.turn.(queue := WithoutOp(gate.turn.queue, o)), waiting := gate.waiting - 1)];
    }

    /** Dropping an `OwnedSemaphorePermit`. */
    method DropPermit(id: string) returns (next: Option<Op>)
      modifies this`gates
      ensures (View(id), next) == ReturnPermit(old(View(id)))
      ensures var q := old(View(id)).gate.turn.queue; next == if q == [] then None else Some(q[0])
      ensures forall other | other != id :: View(other) == old(View(other))
    {
      var gate := Gate(id);
      var s := gate.turn;
      if s.queue == [] {
        next, s := None, s.(available := s.available + 1);
      } else {
        next, s := Some(s.queue[0]), s.(queue := s.queue[1..]);
      }
      gates := gates[id := gate.(turn := s)];
    }

    method QueuePendingReload(id: string)
      modifies this`pendingConfigReload
      ensures View(id) == old(View(id)).(reloadPending := true)
      ensures forall other | other != id :: View(other) == old(View(other))
    {
      pendingConfigReload := pendingConfigReload + {id};
    }

    method TakePendingReload(id: string) returns (taken: bool)
      modifies this`pendingConfigReload
      ensures taken == old(View(id)).reloadPending
      ensures View(id) == old(View(id)).(reloadPending := false)
      ensures forall other | other != id :: View(other) == old(View(other))
    {
      taken := id in pendingConfigReload;
      pendingConfigReload := pendingConfigReload - {id};
    }

    method QueuedCount(id: string) returns (n: int)
      ensures n == View(id).gate.waiting
    {
      n := if id in gates then gates[id].waiting else 0;
    }
  }

  class ConfiguringGuard {
    const tracker: StatusTracker
    const switchId: string
    var permit: bool
    var released: bool

    ghost predicate Live()
      reads this
    {
      permit && !released
    }

    constructor (tracker: StatusTracker, switchId: string)
      ensures Live() && this.tracker == tracker && this.switchId == switchId
    {
      this.tracker, this.switchId, permit, released := tracker, switchId, true, false;
    }

    /** Explicit release: the busy flag first, then the permit. */
    method Release() returns (next: Option<Op>)
      requires Live()
      modifies this, tracker
      ensures released && !permit
      ensures (tracker.View(switchId), next) == ReturnPermit(old(tracker.View(switchId)).(busy := false))
      ensures forall other | other != switchId :: tracker.View(other) == old(tracker.View(other))
    {
      tracker.ClearCurrentlyConfiguring(switchId);
      released := true;
      permit := false;
      next := tracker.DropPermit(switchId);
    }

    /** The cleanup task `Drop` spawns, run to its end; nothing at all after `Release`. */
    method RunDropCleanup() returns (next: Option<Op>)
      requires released || permit
      modifies this, tracker
      ensures !permit || old(released)
      ensures old(released) ==> next == None && forall id :: tracker.View(id) == old(tracker.View(id))
      ensures !old(released) ==>
        (tracker.View(switchId), next) == ReturnPermit(old(tracker.View(switchId)).(busy := false))
      ensures forall other | other != switchId :: tracker.View(other) == old(tracker.View(other))
    {
      if released { return None; }
      permit := false;
      tracker.ClearCurrentlyConfiguring(switchId);
      next := tracker.DropPermit(switchId);
    }
  }
}
