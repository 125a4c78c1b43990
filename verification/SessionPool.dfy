/** One logged-in session per switch kept open between operations
    (switch-configurator/src/session_pool.rs). */
module Sessions {
  import opened Basics
  import opened Models

  /** Identity of an opened vendor connection. */
  type Vendor = nat
  type Token = nat

  /** What a connection was built from. The source hashes these values; the
      model compares them directly. */
  datatype Fingerprint = Fingerprint(
    id: string, model: Option<SwitchModel>, managementIp: Option<string>,
    credentials: Option<Credentials>, sshTimeoutSecs: nat, maxRetries: nat, enforcePortConfig: bool)

  function FingerprintOf(c: SwitchConfig): Fingerprint {
    Fingerprint(c.id, c.model, c.managementIp, c.credentials,
                c.settings.sshTimeoutSecs, c.settings.maxRetries, c.settings.enforcePortConfig)
  }

  /** What has to be unchanged for a session opened for one configuration to serve another. */
  predicate SameConnection(a: SwitchConfig, b: SwitchConfig) {
    && a.id == b.id && a.model == b.model && a.managementIp == b.managementIp && a.credentials == b.credentials
    && a.settings.sshTimeoutSecs == b.settings.sshTimeoutSecs && a.settings.maxRetries == b.settings.maxRetries
    && a.settings.enforcePortConfig == b.settings.enforcePortConfig
  }

  lemma FingerprintsEqualExactly(a: SwitchConfig, b: SwitchConfig)
    ensures FingerprintOf(a) == FingerprintOf(b) <==> SameConnection(a, b)
  {
  }

  datatype Slot = Slot(vendor: Vendor, fingerprint: Fingerprint, token: Token)

  /** The slot holds a session that an operation on `c` kept open. */
  predicate KeptFor(slot: Option<Slot>, c: SwitchConfig) {
    slot.Some? && slot.value.fingerprint == FingerprintOf(c)
  }

  // ---- the lock-held sections, on one switch's slot and the shared counter ----

  /** `slots.remove(id)`, in `checkout` and `close_idle`. */
  function Take(slot: Option<Slot>): (Option<Slot>, Option<Slot>) { (None, slot) }

  /** `close_if_token`: the slot and what was removed from it. */
  function TakeIfToken(slot: Option<Slot>, token: Token): (Option<Slot>, Option<Slot>) {
    if slot.Some? && slot.value.token == token then (None, slot) else (slot, None)
  }

  /** The insertion in `Session::release`: the slot it makes. */
  function Keep(vendor: Vendor, fingerprint: Fingerprint, nextToken: Token): Slot {
    Slot(vendor, fingerprint, nextToken)
  }

  /** Whether a checkout for `fp` hands out the kept session. */
  predicate Reusable(slot: Option<Slot>, fp: Fingerprint, resumes: bool) {
    slot.Some? && slot.value.fingerprint == fp && resumes
  }

  // ---- whole operations, uninterrupted ----

  /** The session in a slot that is thrown away. */
  function Evicted(slot: Option<Slot>): seq<Vendor> { if slot.Some? then [slot.value.vendor] else [] }

  /** `checkout`: the session handed out, if any, and what was disconnected. */
  function CheckoutOutcome(slot: Option<Slot>, fp: Fingerprint, resumes: bool, attempt: Result<Vendor>)
    : (Option<Vendor>, seq<Vendor>)
  {
    if Reusable(slot, fp, resumes) then (Some(slot.value.vendor), [])
    else (if attempt.Ok? then Some(attempt.value) else None, Evicted(slot))
  }

  /** `release`: the slot afterwards, the token of the timer that was armed, and what was disconnected. */
  function ReleaseOutcome(slot: Option<Slot>, vendor: Option<Vendor>, fp: Fingerprint, nextToken: Token, reuse: bool)
    : (Option<Slot>, Option<Token>, seq<Vendor>)
  {
    if vendor.None? then (slot, None, [])
    else if !reuse then (slot, None, [vendor.value])
    else (Some(Keep(vendor.value, fp, nextToken)), Some(nextToken), Evicted(slot))
  }

  class SessionPool {
    var slots: map<string, Slot>
    var nextToken: Token

    ghost function View(id: string): Option<Slot>
      reads this
    {
      if id in slots then Some(slots[id]) else None
    }

    constructor ()
      ensures nextToken == 0 && forall id :: View(id) == None
    {
      slots, nextToken := map[], 0;
    }

    method RemoveSlot(id: string) returns (removed: Option<Slot>)
      modifies this`slots
      ensures (View(id), removed) == Take(old(View(id)))
      ensures forall other | other != id :: View(other) == old(View(other))
    {
      removed := if id in slots then Some(slots[id]) else None;
      slots := slots - {id};
    }

    method RemoveIfToken(id: string, token: Token) returns (expired: Option<Slot>)
      modifies this`slots
      ensures (View(id), expired) == TakeIfToken(old(View(id)), token)
      ensures expired.Some? <==> old(View(id)).Some? && old(View(id)).value.token == token
      ensures if expired.Some? then View(id) == None else View(id) == old(View(id))
      ensures forall other | other != id :: View(other) == old(View(other))
    {
      if id in slots && slots[id].token == token {
        expired := RemoveSlot(id);
      } else {
        expired := None;
      }
    }

    method InsertSlot(id: string, vendor: Vendor, fp: Fingerprint) returns (token: Token, replaced: Option<Slot>)
      modifies this
      ensures token == old(nextToken) && nextToken == token + 1
      ensures replaced == old(View(id)) && View(id) == Some(Keep(vendor, fp, token))
      ensures forall other | other != id :: View(other) == old(View(other))
    {
      token := nextToken;
      nextToken := nextToken + 1;
      replaced := if id in slots then Some(slots[id]) else None;
      slots := slots[id := Slot(vendor, fp, token)];
    }

    /** `checkout` run without interruption. `resumes` is the answer of the kept
        session, `attempt` the outcome of opening a fresh one. */
    method Checkout(config: SwitchConfig, resumes: bool, attempt: Result<Vendor>)
      returns (session: Result<Session>, disconnected: seq<Vendor>)
      modifies this`slots
      ensures View(config.id) == None
      ensures forall other | other != config.id :: View(other) == old(View(other))
      ensures session.Ok? ==>
        fresh(session.value) && session.value.pool == this
        && session.value.switchId == config.id && session.value.fingerprint == FingerprintOf(config)
      ensures (if session.Ok? then session.value.vendor else None, disconnected)
        == CheckoutOutcome(old(View(config.id)), FingerprintOf(config), resumes, attempt)
      ensures session.Ok? <==> Reusable(old(View(config.id)), FingerprintOf(config), resumes) || attempt.Ok?
      ensures forall c | KeptFor(old(View(config.id)), c) ::
        if SameConnection(c, config) && resumes then
          && disconnected == [] && session.Ok?
          && session.value.vendor == Some(old(View(config.id)).value.vendor)
        else
          && disconnected == [old(View(config.id)).value.vendor] && (session.Ok? <==> attempt.Ok?)
          && (session.Ok? ==> session.value.vendor == Some(attempt.value))
    {
      var fp := FingerprintOf(config);
      var kept := RemoveSlot(config.id);
      disconnected := [];
      if kept.Some? {
        if kept.value.fingerprint == fp && resumes {
          var reused := new Session(this, config.id, kept.value.vendor, fp);
          return Ok(reused), [];
        }
        disconnected := [kept.value.vendor];
      }
      if attempt.Err? { return Err, disconnected; }
      var s := new Session(this, config.id, attempt.value, fp);
      session := Ok(s);
    }

    method CloseIdle(id: string) returns (disconnected: seq<Vendor>)
      modifies this`slots
      ensures View(id) == None
      ensures disconnected == if old(View(id)).Some? then [old(View(id)).value.vendor] else []
      ensures forall other | other != id :: View(other) == old(View(other))
    {
      var kept := RemoveSlot(id);
      disconnected := if kept.Some? then [kept.value.vendor] else [];
    }
  }

  class Session {
    const pool: SessionPool
    const switchId: string
    const fingerprint: Fingerprint
    var vendor: Option<Vendor>

    constructor (pool: SessionPool, switchId: string, vendor: Vendor, fp: Fingerprint)
      ensures this.pool == pool && this.switchId == switchId && this.vendor == Some(vendor) && fingerprint == fp
    {
      this.pool, this.switchId, this.vendor, fingerprint := pool, switchId, Some(vendor), fp;
    }

    /** `release` run without interruption: the token of the idle timer it arms, if any. */
    method Release(supportsReuse: bool) returns (armed: Option<Token>, disconnected: seq<Vendor>)
      modifies this, pool
      ensures vendor == None
      ensures (pool.View(switchId), armed, disconnected)
        == ReleaseOutcome(old(pool.View(switchId)), old(vendor), fingerprint, old(pool.nextToken), supportsReuse)
      ensures pool.nextToken == old(pool.nextToken) + if armed.Some? then 1 else 0
      ensures armed.Some? <==> old(vendor).Some? && supportsReuse
      ensures armed.Some? ==>
        && armed.value == old(pool.nextToken)
        && pool.View(switchId) == Some(Slot(old(vendor).value, fingerprint, armed.value))
        && disconnected == (if old(pool.View(switchId)).Some? then [old(pool.View(switchId)).value.vendor] else [])
      ensures armed.None? ==>
        && pool.View(switchId) == old(pool.View(switchId))
        && disconnected == (if old(vendor).Some? then [old(vendor).value] else [])
      ensures forall other | other != switchId :: pool.View(other) == old(pool.View(other))
    {
      if vendor == None { return None, []; }
      var v := vendor.value;
      vendor := None;
      if !supportsReuse { return None, [v]; }
      var token, replaced := pool.InsertSlot(switchId, v, fingerprint);
      armed := Some(token);
      disconnected := if replaced.Some? then [replaced.value.vendor] else [];
    }

    method Discard() returns (disconnected: seq<Vendor>)
      modifies this
      ensures vendor == None
      ensures disconnected == if old(vendor).Some? then [old(vendor).value] else []
    {
      disconnected := if vendor.Some? then [vendor.value] else [];
      vendor := None;
    }
  }
}
