/** Lock and Unlock as one worker executes them. Between the read and the write other workers may do anything. */
module LeaseClient {
  import opened Results
  import opened LeaseLock

  /** What the other workers of the process do: never an action of `id`, never a restart. */
  predicate Others(actions: seq<Action>, id: Id) {
    forall a | a in actions :: !TouchedBy(a, id)
  }

  lemma {:induction false} RunConcat(s: State, first: seq<Action>, second: seq<Action>)
    ensures Run(s, first + second) == Run(Run(s, first), second)
    decreases |first|
  {
    if first == [] {
      assert first + second == second;
    } else {
      assert (first + second)[1..] == first[1..] + second;
      RunConcat(Apply(s, first[0]), first[1..], second);
    }
  }

  lemma RunOne(s: State, a: Action)
    ensures Run(s, [a]) == Apply(s, a)
  {
    assert [a][1..] == [];
  }

  lemma {:induction false} OthersKeepPlace(s: State, actions: seq<Action>, id: Id)
    requires Others(actions, id)
    ensures At(Run(s, actions), id) == At(s, id)
    decreases |actions|
  {
    if actions != [] {
      assert !TouchedBy(actions[0], id);
      OthersKeepPlace(Apply(s, actions[0]), actions[1..], id);
    }
  }

  lemma TwoCalls(s: State, get: Action, between: seq<Action>, write: Action)
    ensures Run(s, [get] + between + [write]) == Apply(Run(Apply(s, get), between), write)
  {
    RunConcat(s, [get] + between, [write]);
    RunConcat(s, [get], between);
    RunOne(s, get);
    RunOne(Run(Apply(s, get), between), write);
  }

  class LeaseServer {
    var state: State

    constructor ()
      ensures state == State(None, 0, map[])
    {
      state := State(None, 0, map[]);
    }

    /** The server's side of Create and Update: `accepted` says whether it found the version it expected. */
    method Write(holder: Option<Id>, accepted: bool, reply: Reply) returns (ok: bool)
      modifies this
      ensures state == if accepted && reply != LostBefore then WithHolder(old(state), holder) else old(state)
      ensures ok == (accepted && reply == Delivered)
    {
      if accepted && reply != LostBefore {
        state := WithHolder(state, holder);
      }
      return accepted && reply == Delivered;
    }

    /** Lock is one run of the protocol's steps, and succeeds exactly when it leaves the worker active. */
    method Lock(id: Id, getReply: Reply, others: seq<Action>, writeReply: Reply)
      returns (ok: bool, ghost trace: seq<Action>)
      requires At(state, id) == Idle && Others(others, id)
      modifies this
      ensures state == Run(old(state), trace)
      ensures trace == [LockGet(id, getReply)]
              || trace == [LockGet(id, getReply)] + others + [LockWrite(id, writeReply)]
      ensures if ok then At(state, id) == Holding && Holder(state) == Some(id) else At(state, id) == Idle
    {
      ghost var start := state;
      trace := [LockGet(id, getReply)];
      RunOne(start, trace[0]);
      if getReply != Delivered {
        return false, trace;
      }
      var lease := state.lease;
      if lease.Some? && lease.value.holder.Some? {
        return false, trace;
      }
      state := Goto(state, id, if lease.None? then LockSawNone else LockSawFree(lease.value.rv));
      OthersKeepPlace(state, others, id);
      TwoCalls(start, trace[0], others, LockWrite(id, writeReply));
      trace := trace + others + [LockWrite(id, writeReply)];
      state := Run(state, others);
      if lease.None? {
        ok := Write(Some(id), state.lease.None?, writeReply);
      } else {
        ok := Write(Some(id), Unchanged(state, lease.value.rv), writeReply);
      }
      state := Goto(state, id, if ok then Holding else Idle);
    }

    /** Unlock likewise. It leaves the worker idle, and frees nothing but its own lease. */
    method Unlock(id: Id, getReply: Reply, others: seq<Action>, writeReply: Reply)
      returns (ok: bool, ghost trace: seq<Action>)
      requires At(state, id) == Holding && Others(others, id)
      modifies this
      ensures state == Run(old(state), trace)
      ensures trace == [UnlockGet(id, getReply)]
              || trace == [UnlockGet(id, getReply)] + others + [UnlockWrite(id, writeReply)]
      ensures At(state, id) == Idle
      ensures Inv(old(state)) && getReply == writeReply == Delivered ==> ok && Holder(state) == None
    {
      ghost var start := state;
      trace := [UnlockGet(id, getReply)];
      RunOne(start, trace[0]);
      if Inv(start) {
        UnlockFreesIff(start, id, getReply, others, writeReply);
        assert InvAt(start, id);
        StepKeepsInv(start, trace[0]);
        if getReply == Delivered {
          OthersCannotInterfere(Apply(start, trace[0]), others, id);
        }
      }
      if getReply != Delivered {
        state := Goto(state, id, Idle);
        return false, trace;
      }
      var lease := state.lease;
      if lease.None? || lease.value.holder == None {
        state := Goto(state, id, Idle);
        return true, trace;
      }
      if lease.value.holder != Some(id) {
        state := Goto(state, id, Idle);
        return false, trace;
      }
      state := Goto(state, id, UnlockSaw(lease.value.rv));
      OthersKeepPlace(state, others, id);
      TwoCalls(start, trace[0], others, UnlockWrite(id, writeReply));
      trace := trace + others + [UnlockWrite(id, writeReply)];
      state := Run(state, others);
      ok := Write(None, Unchanged(state, lease.value.rv), writeReply);
      state := Goto(state, id, Idle);
    }
  }
}
