/** util.Initializer: a value set once under a mutex, and a condition variable for those who wait for it.
    Threads interleave step by step; Go's Wait parks and releases the mutex in one step and has no
    spurious wakeups. */
module Initializer {
  import opened Results

  datatype Op<V> = InitOnce(v: V) | WaitForInit

  /** Locked to Unlocking hold the mutex; Done is past the call. */
  datatype PC = Start | Locked | InF | Wrote | Flagged | Unlocking | Parked | Woken | Done

  datatype Thread<V> = Thread(op: Op<V>, pc: PC)

  /** `slot` is the variable f assigns, and `completed` the values of the calls of f that returned. */
  datatype State<V> = State(mutex: Option<nat>, initialized: bool, slot: Option<V>, completed: seq<V>,
                            threads: seq<Thread<V>>)

  /** How a call of f ends, when it ends in this step: it returns, or it panics after or before storing its value. */
  datatype Ending = Returns | Panics(stored: bool)

  datatype Action = Action(t: nat, ending: Ending)

  predicate HasMutex(pc: PC) {
    pc.Locked? || pc.InF? || pc.Wrote? || pc.Flagged? || pc.Unlocking?
  }

  function Goto<V>(s: State<V>, t: nat, pc: PC): State<V>
    requires t < |s.threads|
  {
    s.(threads := s.threads[t := s.threads[t].(pc := pc)])
  }

  function Acquire<V>(s: State<V>, t: nat): State<V>
    requires t < |s.threads|
  {
    if s.mutex == None then Goto(s, t, Locked).(mutex := Some(t)) else s
  }

  /** Broadcast moves every parked thread to the queue for the mutex. */
  function Wake<V>(threads: seq<Thread<V>>): (woken: seq<Thread<V>>)
    ensures |woken| == |threads|
    ensures forall i | 0 <= i < |threads| ::
              woken[i] == if threads[i].pc.Parked? then threads[i].(pc := Woken) else threads[i]
  {
    seq(|threads|, i requires 0 <= i < |threads| =>
      if threads[i].pc.Parked? then threads[i].(pc := Woken) else threads[i])
  }

  function Apply<V>(s: State<V>, a: Action): State<V> {
    if a.t >= |s.threads| then s
    else
      var t := a.t;
      var th := s.threads[t];
      match th.pc
      case Start => Acquire(s, t)
      case Woken => Acquire(s, t)
      case Locked =>
        if s.initialized then Goto(s, t, Unlocking)
        else if th.op.InitOnce? then Goto(s, t, InF)
        else Goto(s, t, Parked).(mutex := None)
      case InF =>
        if !th.op.InitOnce? then s
        else (match a.ending
              case Returns => Goto(s, t, Wrote).(slot := Some(th.op.v), completed := s.completed + [th.op.v])
              // the deferred unlock runs, the flag stays down
              case Panics(stored) => Goto(s, t, Done).(mutex := None, slot := if stored then Some(th.op.v) else s.slot))
      case Wrote => Goto(s, t, Flagged).(initialized := true)
      case Flagged =>
        var woken := s.(threads := Wake(s.threads));
        Goto(woken, t, Unlocking)
      case Unlocking => Goto(s, t, Done).(mutex := None)
      case Parked => s
      case Done => s
  }

  function Run<V>(s: State<V>, actions: seq<Action>): State<V>
    decreases |actions|
  {
    if actions == [] then s else Run(Apply(s, actions[0]), actions[1..])
  }

  predicate Initial<V>(s: State<V>) {
    && s.mutex == None && !s.initialized && s.slot == None && s.completed == []
    && forall i | 0 <= i < |s.threads| :: s.threads[i].pc.Start?
  }

  /** Some call of f has returned and it was the only one. */
  predicate Settled<V(==)>(s: State<V>) {
    |s.completed| == 1 && s.slot == Some(s.completed[0])
  }

  ghost predicate InvAt<V>(s: State<V>, i: nat)
    requires i < |s.threads|
  {
    var th := s.threads[i];
    && (HasMutex(th.pc) <==> s.mutex == Some(i))
    && (th.pc.InF? ==> !s.initialized && s.completed == [] && th.op.InitOnce?)
    && (th.pc.Wrote? ==> !s.initialized && Settled(s) && th.op.InitOnce?)
    && (th.pc.Flagged? ==> s.initialized && th.op.InitOnce?)
    && (th.pc.Unlocking? ==> s.initialized)
    && (th.pc.Parked? && s.initialized ==> BroadcastDue(s))
    && ((th.pc.Parked? || th.pc.Woken?) ==> th.op.WaitForInit?)
    && (th.pc.Done? && th.op.WaitForInit? ==> s.initialized)
  }

  /** The initialising thread holds the mutex and has yet to broadcast. */
  predicate BroadcastDue<V>(s: State<V>) {
    s.mutex.Some? && s.mutex.value < |s.threads| && s.threads[s.mutex.value].pc.Flagged?
  }

  predicate WroteByHolder<V>(s: State<V>) {
    s.mutex.Some? && s.mutex.value < |s.threads| && s.threads[s.mutex.value].pc.Wrote?
  }

  ghost predicate Inv<V>(s: State<V>) {
    && (s.mutex.Some? ==> s.mutex.value < |s.threads|)
    && (s.initialized ==> Settled(s))
    && (s.completed != [] ==> s.initialized || WroteByHolder(s))
    && forall i: nat | i < |s.threads| :: InvAt(s, i)
  }

  lemma StepKeepsInv<V>(s: State<V>, a: Action)
    requires Inv(s)
    ensures var s' := Apply(s, a);
            && Inv(s') && |s'.threads| == |s.threads|
            && (s.initialized ==> s'.initialized && s'.completed == s.completed && s'.slot == s.slot)
            && (s.completed != [] ==> s'.completed == s.completed)
  {
    var s' := Apply(s, a);
    if a.t < |s.threads| {
      assert InvAt(s, a.t);
      forall i: nat | i < |s'.threads| ensures InvAt(s', i) {
        assert InvAt(s, i);
      }
    }
  }

  lemma {:induction false} RunKeepsInv<V>(s: State<V>, actions: seq<Action>)
    requires Inv(s)
    ensures var s' := Run(s, actions);
            && Inv(s') && |s'.threads| == |s.threads|
            && (s.initialized ==> s'.initialized && s'.completed == s.completed && s'.slot == s.slot)
            && (s.completed != [] ==> s'.completed == s.completed)
    decreases |actions|
  {
    hide Inv, Apply;
    if actions != [] {
      StepKeepsInv(s, actions[0]);
      RunKeepsInv(Apply(s, actions[0]), actions[1..]);
    }
  }

  lemma InitialInv<V>(s: State<V>)
    requires Initial(s)
    ensures Inv(s)
  {
    assert forall i: nat | i < |s.threads| :: s.threads[i].pc.Start?;
  }

  /** Over every interleaving, at most one call of f ever completes, and once one has, no further call is even
      started. */
  lemma AtMostOnce<V>(s: State<V>, actions: seq<Action>, i: nat)
    requires Initial(s) && i < |s.threads|
    ensures var t := Run(s, actions);
            && |t.threads| == |s.threads| && |t.completed| <= 1
            && (t.completed != [] ==> !t.threads[i].pc.InF?)
  {
    InitialInv(s);
    RunKeepsInv(s, actions);
    assert InvAt(Run(s, actions), i);
    var t := Run(s, actions);
    if t.completed != [] && !t.initialized {
      assert InvAt(t, t.mutex.value);
    }
  }

  /** A thread past WaitForInit sees the flag up and the value the one completed call wrote, now and for ever after. */
  lemma WaitersSeeTheValue<V>(s: State<V>, actions: seq<Action>, more: seq<Action>, i: nat)
    requires Initial(s) && i < |Run(s, actions).threads|
    requires Run(s, actions).threads[i].pc.Done? && Run(s, actions).threads[i].op.WaitForInit?
    ensures var t, u := Run(s, actions), Run(Run(s, actions), more);
            && t.initialized && |t.completed| == 1 && t.slot == Some(t.completed[0])
            && u.initialized && u.slot == t.slot && u.completed == t.completed
  {
    InitialInv(s);
    RunKeepsInv(s, actions);
    assert InvAt(Run(s, actions), i);
    RunKeepsInv(Run(s, actions), more);
  }

  /** No wakeup is lost: when the mutex is free and the flag is up, nobody is parked. */
  lemma NoLostWakeup<V>(s: State<V>, actions: seq<Action>, i: nat)
    requires Initial(s) && i < |s.threads|
    ensures var t := Run(s, actions);
            |t.threads| == |s.threads| && (t.mutex == None && t.initialized ==> !t.threads[i].pc.Parked?)
  {
    InitialInv(s);
    RunKeepsInv(s, actions);
    assert InvAt(Run(s, actions), i);
  }

  /** The mutex is never held by two threads. */
  lemma MutexIsExclusive<V>(s: State<V>, actions: seq<Action>, i: nat, j: nat)
    requires Initial(s) && i < |s.threads| && j < |s.threads|
    ensures var t := Run(s, actions);
            |t.threads| == |s.threads| && (HasMutex(t.threads[i].pc) && HasMutex(t.threads[j].pc) ==> i == j)
  {
    InitialInv(s);
    RunKeepsInv(s, actions);
    assert InvAt(Run(s, actions), i) && InvAt(Run(s, actions), j);
  }

  /** A panicking f leaves the flag down: a later InitOnce runs its own f. */
  lemma PanicLeavesRoom<V>(s: State<V>, t: nat, stored: bool, u: nat)
    requires Inv(s) && t < |s.threads| && s.threads[t].pc.InF?
    requires u < |s.threads| && u != t && s.threads[u].pc.Start? && s.threads[u].op.InitOnce?
    ensures var s1 := Apply(s, Action(t, Panics(stored)));
            var s2 := Apply(Apply(s1, Action(u, Returns)), Action(u, Returns));
            s2.threads[u].pc.InF?
  {
    assert InvAt(s, t) && InvAt(s, u);
  }

  // ---- progress ----

  /** How many steps a thread is away from the end of its call, once a value has been written. */
  function StepsLeft(pc: PC): nat {
    match pc
    case Parked => 4
    case Done => 0
    case Unlocking => 1
    case Locked => 2
    case Flagged => 2
    case _ => 3
  }

  function Work<V>(threads: seq<Thread<V>>): nat {
    if threads == [] then 0 else Work(threads[..|threads| - 1]) + StepsLeft(threads[|threads| - 1].pc)
  }

  lemma {:induction false} WorkShrinks<V>(before: seq<Thread<V>>, after: seq<Thread<V>>, t: nat)
    requires |after| == |before| && forall i | 0 <= i < |before| :: StepsLeft(after[i].pc) <= StepsLeft(before[i].pc)
    ensures Work(after) <= Work(before)
    ensures t < |before| && StepsLeft(after[t].pc) < StepsLeft(before[t].pc) ==> Work(after) < Work(before)
  {
    hide StepsLeft;
    if before != [] {
      var n := |before| - 1;
      WorkShrinks(before[..n], after[..n], t);
    }
  }

  /** Once a value is written every step that changes anything brings the threads closer to the end, whoever takes
      it. */
  lemma StepsEnd<V>(s: State<V>, a: Action)
    requires Inv(s) && s.completed != [] && Apply(s, a) != s
    ensures Work(Apply(s, a).threads) < Work(s.threads)
  {
    hide Work;
    assert InvAt(s, a.t);
    if s.mutex.Some? {
      assert InvAt(s, s.mutex.value);
    }
    WorkShrinks(s.threads, Apply(s, a).threads, a.t);
  }

  /** ... and as long as one is not there some step changes something. */
  lemma NobodyIsStuck<V>(s: State<V>, i: nat) returns (a: Action)
    requires Inv(s) && s.completed != [] && i < |s.threads| && !s.threads[i].pc.Done?
    ensures Apply(s, a) != s
  {
    a := Action(if s.mutex.Some? then s.mutex.value else i, Returns);
    assert InvAt(s, i) && InvAt(s, a.t);
  }

  predicate AllDone<V>(s: State<V>) {
    forall i | 0 <= i < |s.threads| :: s.threads[i].pc.Done?
  }

  lemma {:induction false} WrittenGetsAllPast<V>(s: State<V>) returns (actions: seq<Action>)
    requires Inv(s) && s.completed != []
    ensures AllDone(Run(s, actions))
    decreases Work(s.threads)
  {
    hide Apply, Inv, Work;
    actions := [];
    if i: nat :| i < |s.threads| && !s.threads[i].pc.Done? {
      var a := NobodyIsStuck(s, i);
      StepsEnd(s, a);
      StepKeepsInv(s, a);
      var rest := WrittenGetsAllPast(Apply(s, a));
      actions := [a] + rest;
    }
  }

  /** From any reachable state in which a value was written, or a thread has yet to finish InitOnce, some schedule
      brings every thread past its call: no mutex stays locked and no waiter asleep. */
  lemma AllGetPast<V>(s: State<V>, actions: seq<Action>, u: nat) returns (more: seq<Action>)
    requires Initial(s) && u < |Run(s, actions).threads|
    requires var t := Run(s, actions);
             t.completed != [] || (t.threads[u].op.InitOnce? && !t.threads[u].pc.Done?)
    ensures AllDone(Run(Run(s, actions), more))
  {
    InitialInv(s);
    RunKeepsInv(s, actions);
    more := GetAllPast(Run(s, actions), u);
  }

  lemma GetAllPast<V>(s: State<V>, u: nat) returns (more: seq<Action>)
    requires Inv(s) && u < |s.threads|
    requires s.completed != [] || (s.threads[u].op.InitOnce? && !s.threads[u].pc.Done?)
    ensures AllDone(Run(s, more))
    decreases StepsToValue(s)
  {
    if s.completed != [] {
      more := WrittenGetsAllPast(s);
    } else {
      var a := Action(if s.mutex.Some? then s.mutex.value else u, Returns);
      CloserToValue(s, u);
      StepKeepsInv(s, a);
      var rest := GetAllPast(Apply(s, a), u);
      more := [a] + rest;
    }
  }

  /** How far the next value is off, if a thread has yet to finish InitOnce. */
  function StepsToValue<V>(s: State<V>): nat {
    if s.completed != [] then 0
    else if s.mutex == None then 3
    else if s.mutex.value >= |s.threads| then 5
    else
      var holder := s.threads[s.mutex.value];
      if holder.pc.InF? then 1 else if holder.op.InitOnce? then 2 else 4
  }

  lemma CloserToValue<V>(s: State<V>, u: nat)
    requires Inv(s) && u < |s.threads| && s.completed == []
    requires s.threads[u].op.InitOnce? && !s.threads[u].pc.Done?
    ensures var a := Action(if s.mutex.Some? then s.mutex.value else u, Returns);
            var s' := Apply(s, a);
            && StepsToValue(s') < StepsToValue(s) && u < |s'.threads|
            && (s'.completed != [] || (s'.threads[u].op.InitOnce? && !s'.threads[u].pc.Done?))
  {
    assert InvAt(s, u);
    if s.mutex.Some? {
      assert InvAt(s, s.mutex.value);
    }
  }
}
