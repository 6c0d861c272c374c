/** The lease that lets one restore run at a time. Lock and Unlock are each a read followed by an
    optimistic write; workers interleave between the two, and any call may fail before or after it
    took effect. One operator process, whose queue never hands one Restore to two workers at once. */
module LeaseLock {
  import opened Results

  /** leaseHolderName: "name:uid" of the Restore. */
  type Id = string

  datatype Lease = Lease(holder: Option<Id>, rv: nat)

  /** Where a worker is: between the calls of Lock, in the restore itself, or between the calls of Unlock. */
  datatype PC = Idle | LockSawNone | LockSawFree(rv: nat) | Holding | UnlockSaw(rv: nat)

  datatype State = State(lease: Option<Lease>, clock: nat, pcs: map<Id, PC>)

  /** How a call ends: normally, or with an error although the server did not, or did, act on it. */
  datatype Reply = Delivered | LostBefore | LostAfter

  datatype Action =
    | LockGet(id: Id, reply: Reply)
    | LockWrite(id: Id, reply: Reply)
    | UnlockGet(id: Id, reply: Reply)
    | UnlockWrite(id: Id, reply: Reply)
    | Restart(reply: Reply)

  function At(s: State, id: Id): PC {
    if id in s.pcs then s.pcs[id] else Idle
  }

  /** The lease rewritten with a fresh resource version. */
  function WithHolder(s: State, holder: Option<Id>): State {
    s.(lease := Some(Lease(holder, s.clock)), clock := s.clock + 1)
  }

  function Goto(s: State, id: Id, pc: PC): State {
    s.(pcs := s.pcs[id := pc])
  }

  predicate Unchanged(s: State, rv: nat) {
    s.lease.Some? && s.lease.value.rv == rv
  }

  /** The server's answer to Lock's write: Create fails if a lease exists, Update if it has changed. */
  predicate LockAccepted(s: State, id: Id) {
    match At(s, id)
    case LockSawNone => s.lease == None
    case LockSawFree(rv) => Unchanged(s, rv)
    case _ => false
  }

  /** One step; an action that is not enabled changes nothing. */
  function Apply(s: State, a: Action): State {
    match a
    case LockGet(id, reply) =>
      if At(s, id) != Idle || reply != Delivered then s
      else if s.lease == None then Goto(s, id, LockSawNone)
      else if s.lease.value.holder.Some? then s
      else Goto(s, id, LockSawFree(s.lease.value.rv))
    case LockWrite(id, reply) =>
      if !At(s, id).LockSawNone? && !At(s, id).LockSawFree? then s
      else
        var accepted := LockAccepted(s, id);
        var s' := if accepted && reply != LostBefore then WithHolder(s, Some(id)) else s;
        Goto(s', id, if accepted && reply == Delivered then Holding else Idle)
    case UnlockGet(id, reply) =>
      if At(s, id) != Holding then s
      else if reply != Delivered || s.lease == None || s.lease.value.holder != Some(id) then Goto(s, id, Idle)
      else Goto(s, id, UnlockSaw(s.lease.value.rv))
    case UnlockWrite(id, reply) =>
      if !At(s, id).UnlockSaw? then s
      else
        var s' := if Unchanged(s, At(s, id).rv) && reply != LostBefore then WithHolder(s, None) else s;
        Goto(s', id, Idle)
    case Restart(reply) =>
      State(if reply == LostBefore then s.lease else None, s.clock, map[])
  }

  function Run(s: State, actions: seq<Action>): State
    decreases |actions|
  {
    if actions == [] then s else Run(Apply(s, actions[0]), actions[1..])
  }

  /** Start-up: no worker is active, and a lease of an earlier process may still be there. */
  predicate Start(s: State) {
    s.pcs == map[] && (s.lease.Some? ==> s.lease.value.rv < s.clock)
  }

  predicate Active(pc: PC) {
    pc.Holding? || pc.UnlockSaw?
  }

  predicate InvAt(s: State, id: Id) {
    match At(s, id)
    case Idle => true
    case LockSawNone => true
    case LockSawFree(rv) => rv < s.clock && (Unchanged(s, rv) ==> s.lease.value.holder == None)
    case Holding => s.lease.Some? && s.lease.value.holder == Some(id)
    case UnlockSaw(rv) => s.lease.Some? && s.lease.value.holder == Some(id) && s.lease.value.rv == rv
  }

  ghost predicate Inv(s: State) {
    && (s.lease.Some? ==> s.lease.value.rv < s.clock)
    && forall id :: InvAt(s, id)
  }

  lemma StepKeepsInv(s: State, a: Action)
    requires Inv(s)
    ensures Inv(Apply(s, a))
  {
    var s' := Apply(s, a);
    forall id ensures InvAt(s', id) {
      assert InvAt(s, id);
      if !a.Restart? {
        assert InvAt(s, a.id);
      }
    }
  }

  lemma {:induction false} RunKeepsInv(s: State, actions: seq<Action>)
    requires Inv(s)
    ensures Inv(Run(s, actions))
    decreases |actions|
  {
    if actions != [] {
      StepKeepsInv(s, actions[0]);
      RunKeepsInv(Apply(s, actions[0]), actions[1..]);
    }
  }

  /** Over every interleaving, a worker between a successful Lock and the end of its Unlock is the
      recorded holder, so no two workers are ever there together. */
  lemma MutualExclusion(s: State, actions: seq<Action>, a: Id, b: Id)
    requires Start(s)
    ensures var t := Run(s, actions);
            && (Active(At(t, a)) ==> t.lease.Some? && t.lease.value.holder == Some(a))
            && (Active(At(t, a)) && Active(At(t, b)) ==> a == b)
  {
    RunKeepsInv(s, actions);
    assert InvAt(Run(s, actions), a) && InvAt(Run(s, actions), b);
  }

  /** The holder field only ever changes hands as intended: from nobody to the locking worker, from the
      unlocking worker to nobody, or to nobody at a restart. */
  lemma HolderChanges(s: State, actions: seq<Action>, a: Action)
    requires Start(s)
    ensures var t := Run(s, actions);
            var holder, holder' := Holder(t), Holder(Apply(t, a));
            holder' != holder ==>
              || (a.LockWrite? && holder == None && holder' == Some(a.id))
              || (a.UnlockWrite? && holder == Some(a.id) && holder' == None)
              || (a.Restart? && holder' == None)
  {
    RunKeepsInv(s, actions);
    if !a.Restart? {
      assert InvAt(Run(s, actions), a.id);
    }
  }

  function Holder(s: State): Option<Id> {
    if s.lease.Some? then s.lease.value.holder else None
  }

  predicate TouchedBy(a: Action, id: Id) {
    a.Restart? || a.id == id
  }

  /** While `id` is active nobody else can move the lease. */
  lemma {:induction false} OthersCannotInterfere(s: State, actions: seq<Action>, id: Id)
    requires Inv(s) && Active(At(s, id))
    requires forall a | a in actions :: !TouchedBy(a, id)
    ensures var t := Run(s, actions); Inv(t) && At(t, id) == At(s, id) && t.lease == s.lease
    decreases |actions|
  {
    if actions != [] {
      StepKeepsInv(s, actions[0]);
      assert !TouchedBy(actions[0], id);
      assert InvAt(s, id) && InvAt(s, actions[0].id);
      OthersCannotInterfere(Apply(s, actions[0]), actions[1..], id);
    }
  }

  /** Exactly when Unlock frees the lease, whatever other workers do between its two calls: when the
      read is answered and the write takes effect. */
  lemma UnlockFreesIff(s: State, id: Id, get: Reply, between: seq<Action>, write: Reply)
    requires Inv(s) && At(s, id) == Holding
    requires forall a | a in between :: !TouchedBy(a, id)
    ensures var t := Apply(Run(Apply(s, UnlockGet(id, get)), between), UnlockWrite(id, write));
            get == Delivered ==> (Holder(t) != Some(id) <==> write != LostBefore)
    ensures get != Delivered ==> Abandoned(Apply(s, UnlockGet(id, get)), id)
  {
    assert InvAt(s, id);
    var s1 := Apply(s, UnlockGet(id, get));
    StepKeepsInv(s, UnlockGet(id, get));
    if get == Delivered {
      OthersCannotInterfere(s1, between, id);
    }
  }

  /** The lease names a worker that is not running. */
  predicate Abandoned(s: State, id: Id) {
    Holder(s) == Some(id) && !Active(At(s, id))
  }

  /** An abandoned lease is never taken again, by anyone, not even by its own Restore, until the operator restarts. */
  lemma {:induction false} AbandonedForever(s: State, actions: seq<Action>, id: Id, other: Id)
    requires Inv(s) && Abandoned(s, id)
    requires forall a | a in actions :: !a.Restart?
    ensures var t := Run(s, actions); Abandoned(t, id) && !Active(At(t, other))
    decreases |actions|
  {
    assert InvAt(s, other);
    if actions != [] {
      StepKeepsInv(s, actions[0]);
      assert InvAt(s, actions[0].id);
      AbandonedForever(Apply(s, actions[0]), actions[1..], id, other);
    }
  }

  /** ... and this is reachable: one lost read in Unlock is enough. */
  lemma AbandonedReachable(id: Id)
    ensures Abandoned(Run(State(None, 0, map[]),
                          [LockGet(id, Delivered), LockWrite(id, Delivered), UnlockGet(id, LostBefore)]), id)
  {
    var s := State(None, 0, map[]);
    var s1 := Apply(s, LockGet(id, Delivered));
    var s2 := Apply(s1, LockWrite(id, Delivered));
    var all := [LockGet(id, Delivered), LockWrite(id, Delivered), UnlockGet(id, LostBefore)];
    assert all[1..] == [LockWrite(id, Delivered), UnlockGet(id, LostBefore)];
    assert all[1..][1..] == [UnlockGet(id, LostBefore)];
    assert Run(s2, [UnlockGet(id, LostBefore)]) == Apply(s2, UnlockGet(id, LostBefore));
  }

  /** Without abandonment the lock is live: when no one is active, a worker that is not disturbed gets it. */
  lemma FreeLockIsTaken(s: State, id: Id)
    requires Inv(s) && Holder(s) == None && At(s, id) == Idle
    ensures At(Apply(Apply(s, LockGet(id, Delivered)), LockWrite(id, Delivered)), id) == Holding
  {
  }

  /** A restart that gets through frees the lease, whoever was recorded in it; one that does not leaves it as it is. */
  lemma RestartFreesIff(s: State, reply: Reply, id: Id)
    ensures var t := Apply(Apply(Apply(s, Restart(reply)), LockGet(id, Delivered)), LockWrite(id, Delivered));
            At(t, id) == Holding <==> reply != LostBefore || Holder(s) == None
  {
  }
}
