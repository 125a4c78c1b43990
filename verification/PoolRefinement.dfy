/** The whole operations of the session pool, as the classes promise them, are runs of the
    steps of the protocol when nothing interrupts them. */
module PoolRefinement {
  import opened Basics
  import opened Sessions
  import opened Protocol

  /** One step after the other, as long as each may follow. */
  ghost function Run(p: Pool, w: Work, tok: Token, actions: seq<PoolAction>): Option<(Pool, Work, Token)>
    decreases |actions|
  {
    if actions == [] then Some((p, w, tok))
    else if !CanWork(w, actions[0]) then None
    else
      var (p', w', tok') := PoolStep(p, w, tok, actions[0]);
      Run(p', w', tok', actions[1..])
  }

  /** A run ends like this. */
  ghost predicate EndsIn(r: Option<(Pool, Work, Token)>, slot: Option<Slot>, w: Work, tok: Token,
                         timers: set<Token>, disconnects: multiset<Vendor>)
  {
    r.Some? && r.value.0.slot == slot && r.value.1 == w && r.value.2 == tok && r.value.0.timers == timers
    && r.value.0.disconnects == disconnects
  }

  lemma RunOne(p: Pool, w: Work, tok: Token, a: PoolAction, rest: seq<PoolAction>)
    requires CanWork(w, a)
    ensures var (p', w', tok') := PoolStep(p, w, tok, a); Run(p, w, tok, [a] + rest) == Run(p', w', tok', rest)
  {
    assert ([a] + rest)[1..] == rest;
  }

  function CheckoutActions(slot: Option<Slot>, fp: Fingerprint, resumes: bool, opens: bool): seq<PoolAction> {
    if slot.None? then [TakeKept(fp)] + ([Open(opens)] + [])
    else if slot.value.fingerprint != fp then [TakeKept(fp)] + ([StaleClosed] + ([Open(opens)] + []))
    else if resumes then [TakeKept(fp)] + ([Resume(true)] + [])
    else [TakeKept(fp)] + ([Resume(false)] + ([StaleClosed] + ([Open(opens)] + [])))
  }

  /** `checkout`: the session handed out is the one in use afterwards, the slot is empty,
      and what was disconnected is counted once. */
  lemma CheckoutIsSteps(p: Pool, tok: Token, fp: Fingerprint, resumes: bool, attempt: Result<Vendor>)
    requires attempt.Ok? ==> attempt.value == p.openCount
    ensures var (session, disconnected) := CheckoutOutcome(p.slot, fp, resumes, attempt);
      EndsIn(Run(p, Free, tok, CheckoutActions(p.slot, fp, resumes, attempt.Ok?)),
             None, if session.Some? then InUse(session.value, fp) else Free, tok,
              p.timers, p.disconnects + multiset(disconnected))
  {
    var p1 := p.(slot := None);
    if p.slot.None? {
      RunOne(p, Free, tok, TakeKept(fp), [Open(attempt.Ok?)] + []);
      RunOne(p1, Opening(fp), tok, Open(attempt.Ok?), []);
    } else {
      var v := p.slot.value.vendor;
      var p2 := StartDisconnect(p1, v);
      var p3 := p2.(closed := p2.closed + {v});
      var last := [Open(attempt.Ok?)] + [];
      if p.slot.value.fingerprint != fp {
        RunOne(p, Free, tok, TakeKept(fp), [StaleClosed] + last);
        RunOne(p2, StaleClosing(v, fp), tok, StaleClosed, last);
        RunOne(p3, Opening(fp), tok, Open(attempt.Ok?), []);
      } else if resumes {
        RunOne(p, Free, tok, TakeKept(fp), [Resume(true)] + []);
        RunOne(p1, Resuming(v, fp), tok, Resume(true), []);
      } else {
        RunOne(p, Free, tok, TakeKept(fp), [Resume(false)] + ([StaleClosed] + last));
        RunOne(p1, Resuming(v, fp), tok, Resume(false), [StaleClosed] + last);
        RunOne(p2, StaleClosing(v, fp), tok, StaleClosed, last);
        RunOne(p3, Opening(fp), tok, Open(attempt.Ok?), []);
      }
    }
  }

  function ReleaseActions(slot: Option<Slot>, reuse: bool): seq<PoolAction> {
    if !reuse then [Release(false)] + ([Closed] + [])
    else if slot.None? then [Release(true)] + ([KeepSlot] + ([Arm] + []))
    else [Release(true)] + ([KeepSlot] + ([ReplacedClosed] + ([Arm] + [])))
  }

  /** `release`: slot, token, timer and disconnects afterwards are those of the outcome. */
  lemma ReleaseIsSteps(p: Pool, tok: Token, s: Vendor, fp: Fingerprint, reuse: bool)
    ensures var (slot, armed, disconnected) := ReleaseOutcome(p.slot, Some(s), fp, tok, reuse);
      EndsIn(Run(p, InUse(s, fp), tok, ReleaseActions(p.slot, reuse)),
             slot, Free, if armed.Some? then tok + 1 else tok,
             p.timers + (if armed.Some? then {armed.value} else {}), p.disconnects + multiset(disconnected))
  {
    if !reuse {
      RunOne(p, InUse(s, fp), tok, Release(false), [Closed] + []);
      RunOne(StartDisconnect(p, s), Closing(s), tok, Closed, []);
    } else {
      var p1 := p.(slot := Some(Keep(s, fp, tok)), keepOpens := p.keepOpens[tok := s]);
      if p.slot.None? {
        RunOne(p, InUse(s, fp), tok, Release(true), [KeepSlot] + ([Arm] + []));
        RunOne(p, Keeping(s, fp), tok, KeepSlot, [Arm] + []);
        RunOne(p1, Arming(tok), tok + 1, Arm, []);
      } else {
        var v := p.slot.value.vendor;
        var p2 := StartDisconnect(p1, v);
        RunOne(p, InUse(s, fp), tok, Release(true), [KeepSlot] + ([ReplacedClosed] + ([Arm] + [])));
        RunOne(p, Keeping(s, fp), tok, KeepSlot, [ReplacedClosed] + ([Arm] + []));
        RunOne(p2, ReplacedClosing(v, tok), tok + 1, ReplacedClosed, [Arm] + []);
        RunOne(p2.(closed := p2.closed + {v}), Arming(tok), tok + 1, Arm, []);
      }
    }
  }

  /** `discard`. */
  lemma DiscardIsSteps(p: Pool, tok: Token, s: Vendor, fp: Fingerprint)
    ensures EndsIn(Run(p, InUse(s, fp), tok, [Discard] + ([Closed] + [])),
                   p.slot, Free, tok, p.timers, p.disconnects + multiset([s]))
  {
    RunOne(p, InUse(s, fp), tok, Discard, [Closed] + []);
    RunOne(StartDisconnect(p, s), Closing(s), tok, Closed, []);
  }

  function CloseIdleActions(slot: Option<Slot>): seq<PoolAction> {
    if slot.None? then [CloseIdle] + [] else [CloseIdle] + ([ApplyFreed] + [])
  }

  /** `close_idle`, as apply runs it before it opens its own session. */
  lemma CloseIdleIsSteps(p: Pool, tok: Token)
    ensures EndsIn(Run(p, Free, tok, CloseIdleActions(p.slot)),
                   None, ApplyReady, tok, p.timers, p.disconnects + multiset(Evicted(p.slot)))
  {
    if p.slot.None? {
      RunOne(p, Free, tok, CloseIdle, []);
    } else {
      var v := p.slot.value.vendor;
      RunOne(p, Free, tok, CloseIdle, [ApplyFreed] + []);
      RunOne(StartDisconnect(p.(slot := None), v), ApplyFreeing(v), tok, ApplyFreed, []);
    }
  }
}
