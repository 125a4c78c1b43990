/** The protocol over whole runs of the service, all switches together. */
module ProtocolRuns {
  import opened Sessions
  import opened Protocol
  import opened ProtocolInvariants

  /** The lines of all switches; the token counter is shared between them. */
  datatype System = System(lines: map<string, Line>, nextToken: Token) {
    function Of(id: string): Line { if id in lines then lines[id] else START }
  }

  const BOOT := System(map[], 0)

  ghost predicate Steps(s: System, s': System, id: string, a: Action) {
    && Enabled(s.Of(id), a)
    && s' == System(s.lines[id := Step(s.Of(id), s.nextToken, a).0], Step(s.Of(id), s.nextToken, a).1)
  }

  ghost predicate Follows(s: System, s': System) {
    exists id, a :: Steps(s, s', id, a)
  }

  ghost predicate Linked(run: seq<System>, k: nat)
    requires k + 1 < |run|
  {
    Follows(run[k], run[k + 1])
  }

  ghost predicate IsRun(run: seq<System>) {
    && |run| > 0 && run[0] == BOOT
    && forall k: nat :: k + 1 < |run| ==> Linked(run, k)
  }

  ghost predicate SystemInv(s: System) {
    && (forall id :: LineInv(s.Of(id), s.nextToken))
    && (forall id1, id2 :: id1 != id2 ==> s.Of(id1).pool.keepOpens.Keys !! s.Of(id2).pool.keepOpens.Keys)
  }

  lemma StepsKeepLines(s: System, s': System, id: string, a: Action, other: string)
    requires LineInv(s.Of(id), s.nextToken) && LineInv(s.Of(other), s.nextToken) && Steps(s, s', id, a)
    ensures LineInv(s'.Of(other), s'.nextToken)
  {
    StepKeeps(s.Of(id), s.nextToken, a);
    if other != id {
      assert s'.Of(other) == s.Of(other);
    }
  }

  lemma TokensBelow(l: Line, tok: Token)
    requires LineInv(l, tok)
    ensures forall t :: t in l.pool.keepOpens ==> t < tok
    ensures PoolInv(l.pool, CurrentWork(l), tok)
  {
  }

  /** A step of one switch issues no token that another switch has. */
  lemma StepsKeepApart(s: System, id: string, a: Action, other: string)
    requires LineInv(s.Of(id), s.nextToken) && LineInv(s.Of(other), s.nextToken) && Enabled(s.Of(id), a)
    requires s.Of(id).pool.keepOpens.Keys !! s.Of(other).pool.keepOpens.Keys
    ensures Step(s.Of(id), s.nextToken, a).0.pool.keepOpens.Keys !! s.Of(other).pool.keepOpens.Keys
  {
    TokensBelow(s.Of(id), s.nextToken);
    TokensBelow(s.Of(other), s.nextToken);
    StepGrows(s.Of(id), s.nextToken, a);
  }

  lemma StepsKeepOther(s: System, s': System, id: string, a: Action, other: string)
    requires LineInv(s.Of(id), s.nextToken) && LineInv(s.Of(other), s.nextToken) && Steps(s, s', id, a)
    requires other != id && s.Of(id).pool.keepOpens.Keys !! s.Of(other).pool.keepOpens.Keys
    ensures s'.Of(other) == s.Of(other) && s'.Of(id).pool.keepOpens.Keys !! s.Of(other).pool.keepOpens.Keys
  {
    StepsKeepApart(s, id, a, other);
  }

  lemma StillApart(s: System, s': System, id: string)
    requires SystemInv(s)
    requires forall other :: other != id ==>
      s'.Of(other) == s.Of(other) && s'.Of(id).pool.keepOpens.Keys !! s.Of(other).pool.keepOpens.Keys
    ensures forall id1, id2 :: id1 != id2 ==> s'.Of(id1).pool.keepOpens.Keys !! s'.Of(id2).pool.keepOpens.Keys
  {
  }

  lemma StepsKeep(s: System, s': System, id: string, a: Action)
    requires SystemInv(s) && Steps(s, s', id, a)
    ensures SystemInv(s')
  {
    forall other ensures LineInv(s'.Of(other), s'.nextToken) {
      StepsKeepLines(s, s', id, a, other);
    }
    forall other | other != id
      ensures s'.Of(other) == s.Of(other) && s'.Of(id).pool.keepOpens.Keys !! s.Of(other).pool.keepOpens.Keys
    {
      StepsKeepOther(s, s', id, a, other);
    }
    StillApart(s, s', id);
  }

  lemma {:induction false} Reachable(run: seq<System>, i: nat)
    requires IsRun(run) && i < |run|
    ensures SystemInv(run[i])
  {
    if i == 0 {
    } else {
      Reachable(run, i - 1);
      assert Linked(run, i - 1);
      var id, a :| Steps(run[i - 1], run[i], id, a);
      StepsKeep(run[i - 1], run[i], id, a);
    }
  }
}
