/** deleteResources: workers drain one queue of deletion targets, each entry taking up to three API
    calls, interleaved in any order. The pass returns nil when no entry recorded an error. */
module WorkerPool {
  import opened Results
  import opened Kube

  const WORKER_THREADS := 25

  /** The call a worker makes next for the entry in its hand. */
  datatype Stage = Fetch | Write(m: Manifest, rv: nat) | Remove

  datatype Worker = Idle | Busy(entry: nat, stage: Stage) | Finished

  /** `head` entries have left the queue; `taken[i]` is the worker that received entry i. */
  datatype Pool = Pool(targets: seq<Key>, removeFinalizers: bool, head: nat, taken: seq<nat>,
                       workers: seq<Worker>, processed: set<nat>, failed: set<nat>, cluster: Cluster)

  /** A call is served, or ends in some other error before or after it took effect. */
  datatype Reply = Served | LostBefore | LostAfter

  datatype Action = Take(w: nat) | Call(w: nat, reply: Reply)

  function Fresh(targets: seq<Key>, removeFinalizers: bool, c: Cluster): Pool {
    Pool(targets, removeFinalizers, 0, [], seq(WORKER_THREADS, w => Idle), {}, {}, c)
  }

  function Done(p: Pool, w: nat, entry: nat, error: bool): Pool
    requires w < |p.workers|
  {
    p.(workers := p.workers[w := Idle], processed := p.processed + {entry},
       failed := if error then p.failed + {entry} else p.failed)
  }

  /** The cluster after a call that was accepted, unless the call got lost on the way. */
  function Effect(c: Cluster, r: Result<Cluster, ApiError>, reply: Reply): Cluster {
    if r.Ok? && reply != LostBefore then r.value else c
  }

  predicate CanTake(p: Pool, w: nat) {
    w < |p.workers| && p.workers[w].Idle?
  }

  predicate CanCall(p: Pool, w: nat) {
    w < |p.workers| && p.workers[w].Busy? && p.workers[w].entry < |p.targets|
  }

  function ApplyTake(p: Pool, w: nat): Pool
    requires CanTake(p, w)
  {
    if p.head < |p.targets| then
      p.(workers := p.workers[w := Busy(p.head, if p.removeFinalizers then Fetch else Remove)],
         head := p.head + 1, taken := p.taken + [w])
    else p.(workers := p.workers[w := Finished])
  }

  function ApplyCall(p: Pool, w: nat, reply: Reply): Pool
    requires CanCall(p, w)
  {
    var Busy(entry, stage) := p.workers[w];
    var k := p.targets[entry];
    match stage
    case Fetch =>
      if reply != Served then Done(p, w, entry, true)
      else (match Get(p.cluster, k)
            case Err(_) => Done(p, w, entry, false)
            case Ok(obj) => p.(workers := p.workers[w := Busy(entry, Write(obj.manifest.(finalizers := {}), obj.rv))]))
    case Write(m, rv) =>
      var r := Update(p.cluster, k, m, rv);
      var p' := p.(cluster := Effect(p.cluster, r, reply));
      if reply == Served && r.Ok? then p'.(workers := p.workers[w := Busy(entry, Remove)])
      else Done(p', w, entry, true)
    case Remove =>
      var r := Delete(p.cluster, k);
      Done(p.(cluster := Effect(p.cluster, r, reply)), w, entry, reply != Served)
  }

  function Apply(p: Pool, a: Action): Pool {
    match a
    case Take(w) => if CanTake(p, w) then ApplyTake(p, w) else p
    case Call(w, reply) => if CanCall(p, w) then ApplyCall(p, w, reply) else p
  }

  function Run(p: Pool, actions: seq<Action>): Pool
    decreases |actions|
  {
    if actions == [] then p else Run(Apply(p, actions[0]), actions[1..])
  }

  // ---- every entry is in exactly one place ----

  predicate Holds(p: Pool, w: nat, i: nat) {
    w < |p.workers| && p.workers[w].Busy? && p.workers[w].entry == i
  }

  ghost predicate Placed(p: Pool, i: nat)
    requires |p.taken| == p.head
  {
    if i >= p.head then i !in p.processed && forall w: nat :: !Holds(p, w, i)
    else if i in p.processed then forall w: nat :: !Holds(p, w, i)
    else Holds(p, p.taken[i], i) && forall w: nat | Holds(p, w, i) :: w == p.taken[i]
  }

  ghost predicate Conserved(p: Pool) {
    && |p.taken| == p.head <= |p.targets|
    && (forall i: nat :: Placed(p, i))
    && (forall i | i in p.failed :: i in p.processed)
    && (forall w | 0 <= w < |p.workers| && p.workers[w].Finished? :: p.head == |p.targets|)
  }

  lemma TakeConserves(p: Pool, w: nat)
    requires Conserved(p) && CanTake(p, w)
    ensures Conserved(ApplyTake(p, w))
  {
    var q := ApplyTake(p, w);
    forall i: nat ensures Placed(q, i) {
      assert Placed(p, i);
      assert forall v: nat :: Holds(q, v, i) <==>
        (if v == w then p.head < |p.targets| && i == p.head else Holds(p, v, i));
    }
  }

  lemma MoveConserves(p: Pool, w: nat, stage: Stage, c: Cluster)
    requires Conserved(p) && CanCall(p, w)
    ensures Conserved(p.(workers := p.workers[w := Busy(p.workers[w].entry, stage)], cluster := c))
  {
    var q := p.(workers := p.workers[w := Busy(p.workers[w].entry, stage)], cluster := c);
    forall i: nat ensures Placed(q, i) {
      assert Placed(p, i);
      assert forall v: nat :: Holds(q, v, i) <==> Holds(p, v, i);
    }
  }

  lemma DoneConserves(p: Pool, w: nat, error: bool, c: Cluster)
    requires Conserved(p) && CanCall(p, w)
    ensures Conserved(Done(p.(cluster := c), w, p.workers[w].entry, error))
  {
    var entry := p.workers[w].entry;
    var q := Done(p.(cluster := c), w, entry, error);
    assert Placed(p, entry) && Holds(p, w, entry);
    forall i: nat ensures Placed(q, i) {
      assert Placed(p, i);
      assert forall v: nat :: Holds(q, v, i) <==> v != w && Holds(p, v, i);
    }
  }

  lemma StepConserves(p: Pool, a: Action)
    requires Conserved(p)
    ensures Conserved(Apply(p, a))
    ensures Apply(p, a).targets == p.targets && Apply(p, a).removeFinalizers == p.removeFinalizers
    ensures |Apply(p, a).workers| == |p.workers|
  {
    hide Conserved, Get, Update, Delete;
    match a
    case Take(w) => if CanTake(p, w) { TakeConserves(p, w); }
    case Call(w, reply) =>
      if CanCall(p, w) {
        var q := Apply(p, a);
        MoveConserves(p, w, if q.workers[w].Busy? then q.workers[w].stage else Fetch, q.cluster);
        DoneConserves(p, w, false, q.cluster);
        DoneConserves(p, w, true, q.cluster);
      }
  }

  // ---- what has become of the targets ----

  /** The entry's object is gone, or its deletion was requested; once finalizers are removed, only
      spec.finalizers can still hold it. */
  predicate Settled(p: Pool, i: nat) {
    i < |p.targets| &&
    var k := p.targets[i];
    k in p.cluster.objects ==>
      var obj := p.cluster.objects[k];
      obj.terminating && (p.removeFinalizers ==> obj.manifest.finalizers == {} && obj.manifest.specFinalizers)
  }

  /** What a worker knows between two of its calls. */
  predicate Knows(p: Pool, entry: nat, stage: Stage) {
    entry < |p.targets| &&
    var k := p.targets[entry];
    match stage
    case Fetch => p.removeFinalizers
    case Write(m, rv) =>
      && p.removeFinalizers && rv < p.cluster.clock && m.finalizers == {}
      && (k in p.cluster.objects && p.cluster.objects[k].rv == rv ==>
        m == p.cluster.objects[k].manifest.(finalizers := {}))
    case Remove =>
      p.removeFinalizers && k in p.cluster.objects ==> p.cluster.objects[k].manifest.finalizers == {}
  }

  /** How one call may change the cluster during the pass: no object appears; one that is rewritten gets a
      fresh version, keeps its deletion mark and spec.finalizers, and gains no finalizer. */
  predicate Shrinks(c: Cluster, d: Cluster, removeFinalizers: bool) {
    && c.clock <= d.clock && d.objects.Keys <= c.objects.Keys
    && forall k | k in d.objects :: d.objects[k] == c.objects[k] || Rewritten(c.objects[k], d.objects[k], c.clock)
  }

  predicate Rewritten(a: Obj, b: Obj, clock: nat) {
    && b.rv >= clock
    && (a.terminating ==> b.terminating)
    && b.manifest.specFinalizers == a.manifest.specFinalizers
    && b.manifest.finalizers <= a.manifest.finalizers
  }

  ghost predicate Progress(p: Pool) {
    && Conserved(p) && Fresher(p.cluster)
    && (forall w: nat | w < |p.workers| && p.workers[w].Busy? :: Knows(p, p.workers[w].entry, p.workers[w].stage))
    && (forall i | i in p.processed && i !in p.failed :: Settled(p, i))
  }

  lemma SettledStays(p: Pool, d: Cluster, i: nat)
    requires Settled(p, i) && Shrinks(p.cluster, d, p.removeFinalizers)
    ensures Settled(p.(cluster := d), i)
  {
  }

  lemma KnowledgeStays(p: Pool, d: Cluster, entry: nat, stage: Stage)
    requires Knows(p, entry, stage) && Shrinks(p.cluster, d, p.removeFinalizers)
    ensures Knows(p.(cluster := d), entry, stage)
  {
  }

  lemma CallShrinks(p: Pool, w: nat, reply: Reply)
    requires CanCall(p, w) && Fresher(p.cluster) && Knows(p, p.workers[w].entry, p.workers[w].stage)
    ensures var d := ApplyCall(p, w, reply).cluster;
            && Shrinks(p.cluster, d, p.removeFinalizers) && Fresher(d)
            && forall k | k != p.targets[p.workers[w].entry] :: (k in p.cluster.objects <==> k in d.objects) &&
                 (k in d.objects ==> d.objects[k] == p.cluster.objects[k])
  {
  }

  /** What the calling worker learns, and what it leaves behind. */
  lemma CallTeaches(p: Pool, w: nat, reply: Reply)
    requires CanCall(p, w) && Fresher(p.cluster) && Knows(p, p.workers[w].entry, p.workers[w].stage)
    ensures var q, entry := ApplyCall(p, w, reply), p.workers[w].entry;
            && (q.workers[w].Busy? ==> Knows(q, entry, q.workers[w].stage))
            && (entry in q.processed && entry !in q.failed && entry !in p.processed ==> Settled(q, entry))
  {
  }

  lemma StepProgress(p: Pool, a: Action)
    requires Progress(p)
    ensures Progress(Apply(p, a))
  {
    hide Conserved, Knows, Settled, Shrinks, Get, Update, Delete;
    StepConserves(p, a);
    var q := Apply(p, a);
    match a
    case Take(w) =>
      if CanTake(p, w) {
        TakeTeaches(p, w);
      }
    case Call(w, reply) =>
      if CanCall(p, w) {
        NotYetProcessed(p, w);
        CallShrinks(p, w, reply);
        CallTeaches(p, w, reply);
        forall v: nat | v < |q.workers| && q.workers[v].Busy? ensures Knows(q, q.workers[v].entry, q.workers[v].stage) {
          if v != w {
            KnowledgeStays(p, q.cluster, p.workers[v].entry, p.workers[v].stage);
            KnowsLocal(p.(cluster := q.cluster), q, p.workers[v].entry, p.workers[v].stage);
          }
        }
        forall i | i in q.processed && i !in q.failed ensures Settled(q, i) {
          if i in p.processed {
            SettledStays(p, q.cluster, i);
            SettledLocal(p.(cluster := q.cluster), q, i);
          }
        }
      }
  }

  lemma KnowsLocal(p: Pool, q: Pool, entry: nat, stage: Stage)
    requires Knows(p, entry, stage)
    requires q.cluster == p.cluster && q.targets == p.targets && q.removeFinalizers == p.removeFinalizers
    ensures Knows(q, entry, stage)
  {
  }

  lemma SettledLocal(p: Pool, q: Pool, i: nat)
    requires Settled(p, i)
    requires q.cluster == p.cluster && q.targets == p.targets && q.removeFinalizers == p.removeFinalizers
    ensures Settled(q, i)
  {
  }

  lemma NotYetProcessed(p: Pool, w: nat)
    requires Conserved(p) && CanCall(p, w)
    ensures p.workers[w].entry !in p.processed
  {
    assert Placed(p, p.workers[w].entry) && Holds(p, w, p.workers[w].entry);
  }

  lemma TakeTeaches(p: Pool, w: nat)
    requires Progress(p) && CanTake(p, w)
    ensures var q := ApplyTake(p, w);
            && (forall v: nat | v < |q.workers| && q.workers[v].Busy? ::
              Knows(q, q.workers[v].entry, q.workers[v].stage))
            && (forall i | i in q.processed && i !in q.failed :: Settled(q, i))
  {
    var q := ApplyTake(p, w);
    forall v: nat | v < |q.workers| && q.workers[v].Busy? ensures Knows(q, q.workers[v].entry, q.workers[v].stage) {
      if v != w {
        KnowsLocal(p, q, p.workers[v].entry, p.workers[v].stage);
      }
    }
    forall i | i in q.processed && i !in q.failed ensures Settled(q, i) {
      SettledLocal(p, q, i);
    }
  }

  lemma FreshProgress(targets: seq<Key>, removeFinalizers: bool, c: Cluster)
    requires Fresher(c)
    ensures Progress(Fresh(targets, removeFinalizers, c))
  {
    var p := Fresh(targets, removeFinalizers, c);
    assert forall i: nat :: Placed(p, i);
  }

  lemma {:induction false} RunProgress(p: Pool, actions: seq<Action>)
    requires Progress(p)
    ensures var q := Run(p, actions);
            && Progress(q) && q.targets == p.targets && q.removeFinalizers == p.removeFinalizers
            && |q.workers| == |p.workers|
    decreases |actions|
  {
    hide Progress, Apply;
    if actions != [] {
      StepProgress(p, actions[0]);
      ProgressGives(p);
      StepConserves(p, actions[0]);
      RunProgress(Apply(p, actions[0]), actions[1..]);
    }
  }

  lemma ProgressGives(p: Pool)
    requires Progress(p)
    ensures Conserved(p) && Fresher(p.cluster)
  {
  }

  /** Objects that are no target keep their place and content. */
  predicate Untouched(targets: seq<Key>, c: Cluster, d: Cluster) {
    && (forall k | k in c.objects && k !in targets :: k in d.objects && d.objects[k] == c.objects[k])
    && d.objects.Keys <= c.objects.Keys
  }

  lemma {:induction false} RunUntouched(p: Pool, actions: seq<Action>)
    requires Progress(p)
    ensures Untouched(p.targets, p.cluster, Run(p, actions).cluster)
    decreases |actions|
  {
    hide Conserved, Progress, Knows, Settled, Get, Update, Delete;
    if actions != [] {
      var q := Apply(p, actions[0]);
      StepUntouched(p, actions[0]);
      StepProgress(p, actions[0]);
      ProgressGives(p);
      StepConserves(p, actions[0]);
      RunUntouched(q, actions[1..]);
    }
  }

  lemma StepUntouched(p: Pool, a: Action)
    requires Progress(p)
    ensures Untouched(p.targets, p.cluster, Apply(p, a).cluster)
  {
    hide Conserved, Knows, Settled, Get, Update, Delete;
    if a.Call? && CanCall(p, a.w) {
      CallShrinks(p, a.w, a.reply);
      assert p.targets[p.workers[a.w].entry] in p.targets;
    }
  }

  // ---- the results ----

  predicate AllFinished(p: Pool) {
    |p.workers| > 0 && forall w | 0 <= w < |p.workers| :: p.workers[w].Finished?
  }

  /** errgrp.Wait() returned nil. */
  predicate ReturnedNil(p: Pool) {
    AllFinished(p) && p.failed == {}
  }

  /** Under every interleaving, every entry is still queued, in exactly one worker's hand, or processed;
      and the worker that has or had it is the only one that ever received it. */
  lemma EachEntryOnce(targets: seq<Key>, removeFinalizers: bool, c: Cluster, actions: seq<Action>, i: nat)
    requires Fresher(c) && i < |targets|
    ensures var p := Run(Fresh(targets, removeFinalizers, c), actions);
            && p.targets == targets && |p.taken| == p.head
            && (i >= p.head ==> i !in p.processed && forall w: nat :: !Holds(p, w, i))
            && (i < p.head && i !in p.processed ==> forall w: nat :: Holds(p, w, i) <==> w == p.taken[i])
            && (i < p.head && i in p.processed ==> forall w: nat :: !Holds(p, w, i))
            && (AllFinished(p) ==> i in p.processed)
  {
    FreshProgress(targets, removeFinalizers, c);
    RunProgress(Fresh(targets, removeFinalizers, c), actions);
    var p := Run(Fresh(targets, removeFinalizers, c), actions);
    assert Placed(p, i);
    assert AllFinished(p) ==> p.workers[0].Finished?;
  }

  /** A pass that returns nil has dealt with every target; nothing else has changed. */
  lemma NilPassSettles(targets: seq<Key>, removeFinalizers: bool, c: Cluster, actions: seq<Action>)
    requires Fresher(c)
    ensures var p := Run(Fresh(targets, removeFinalizers, c), actions);
            && Untouched(targets, c, p.cluster) && Fresher(p.cluster)
            && (ReturnedNil(p) ==> forall k | k in targets && k in p.cluster.objects ::
                  && p.cluster.objects[k].terminating
                  && (removeFinalizers ==> p.cluster.objects[k].manifest.specFinalizers))
  {
    var f := Fresh(targets, removeFinalizers, c);
    FreshProgress(targets, removeFinalizers, c);
    RunProgress(f, actions);
    RunUntouched(f, actions);
    var p := Run(f, actions);
    if ReturnedNil(p) {
      forall k | k in targets && k in p.cluster.objects
        ensures p.cluster.objects[k].terminating && (removeFinalizers ==> p.cluster.objects[k].manifest.specFinalizers)
      {
        var i :| 0 <= i < |targets| && targets[i] == k;
        EachEntryOnce(targets, removeFinalizers, c, actions, i);
        assert Settled(p, i);
      }
    }
  }

  /** pruneClusterScopedResources: a first pass whose errors are only logged, then one that removes finalizers. */
  function Prune(targets: seq<Key>, c: Cluster, first: seq<Action>, second: seq<Action>): Pool {
    Run(Fresh(targets, true, Run(Fresh(targets, false, c), first).cluster), second)
  }

  /** If the finalizer-removing pass returns nil, every target without spec.finalizers is gone and every
      other object is as it was, whatever happened in the first pass. */
  lemma PruneRemovesTargets(targets: seq<Key>, c: Cluster, first: seq<Action>, second: seq<Action>)
    requires Fresher(c)
    ensures var p := Prune(targets, c, first, second);
            && Untouched(targets, c, p.cluster)
            && (ReturnedNil(p) ==>
              forall k | k in targets && k in p.cluster.objects :: p.cluster.objects[k].manifest.specFinalizers)
  {
    hide Progress, Conserved, Run, Fresher;
    NilPassSettles(targets, false, c, first);
    NilPassSettles(targets, true, Run(Fresh(targets, false, c), first).cluster, second);
  }

  /** What a pass may do to an object: remove it, mark it deleted and, if finalizers go, empty its finalizers. */
  predicate OnlyMarks(c: Cluster, d: Cluster, removeFinalizers: bool) {
    forall k | k in d.objects :: k in c.objects && Marked(c.objects[k], d.objects[k], removeFinalizers)
  }

  predicate Marked(a: Obj, b: Obj, removeFinalizers: bool) {
    && b.uid == a.uid && (a.terminating ==> b.terminating)
    && (b.manifest == a.manifest || (removeFinalizers && b.manifest == a.manifest.(finalizers := {})))
  }

  lemma StepOnlyMarks(p: Pool, a: Action)
    requires Progress(p)
    ensures OnlyMarks(p.cluster, Apply(p, a).cluster, p.removeFinalizers)
  {
    hide Conserved, Settled;
    if a.Call? && CanCall(p, a.w) {
      assert Knows(p, p.workers[a.w].entry, p.workers[a.w].stage);
    }
  }

  lemma {:induction false} RunOnlyMarks(p: Pool, actions: seq<Action>)
    requires Progress(p)
    ensures OnlyMarks(p.cluster, Run(p, actions).cluster, p.removeFinalizers)
    decreases |actions|
  {
    hide Progress, Apply, Conserved;
    if actions != [] {
      StepOnlyMarks(p, actions[0]);
      StepProgress(p, actions[0]);
      ProgressGives(p);
      StepConserves(p, actions[0]);
      RunOnlyMarks(Apply(p, actions[0]), actions[1..]);
    }
  }

  /** Under every schedule: the first pass takes away no finalizer, and neither changes anything else of an object
      that is still there. */
  lemma PassOnlyMarks(targets: seq<Key>, removeFinalizers: bool, c: Cluster, actions: seq<Action>)
    requires Fresher(c)
    ensures OnlyMarks(c, Run(Fresh(targets, removeFinalizers, c), actions).cluster, removeFinalizers)
  {
    FreshProgress(targets, removeFinalizers, c);
    RunOnlyMarks(Fresh(targets, removeFinalizers, c), actions);
  }

  // ---- a pass ends ----

  /** How many steps a worker may take before it asks for the next entry or finishes. */
  function StepsLeft(w: Worker): nat {
    match w
    case Finished => 0
    case Idle => 1
    case Busy(_, Remove) => 2
    case Busy(_, Write(_, _)) => 3
    case Busy(_, Fetch) => 4
  }

  function StepsOfAll(workers: seq<Worker>): nat {
    if workers == [] then 0 else StepsOfAll(workers[..|workers| - 1]) + StepsLeft(workers[|workers| - 1])
  }

  function Work(p: Pool): nat
    requires p.head <= |p.targets|
  {
    4 * (|p.targets| - p.head) + StepsOfAll(p.workers)
  }

  lemma {:induction false} WorkAfter(workers: seq<Worker>, w: nat, next: Worker)
    requires w < |workers|
    ensures StepsOfAll(workers[w := next]) + StepsLeft(workers[w]) == StepsOfAll(workers) + StepsLeft(next)
  {
    hide StepsLeft;
    var n := |workers| - 1;
    if w < n {
      assert workers[w := next][..n] == workers[..n][w := next];
      WorkAfter(workers[..n], w, next);
    } else {
      assert workers[w := next][..n] == workers[..n];
    }
  }

  /** Every step that changes anything brings the pass closer to its end, whatever the replies. */
  lemma StepsEnd(p: Pool, a: Action)
    requires Conserved(p) && Apply(p, a) != p
    ensures Apply(p, a).head <= |Apply(p, a).targets| && Work(Apply(p, a)) < Work(p)
  {
    hide Placed, StepsOfAll, Get, Update, Delete;
    assert a.w < |p.workers|;
    WorkAfter(p.workers, a.w, Apply(p, a).workers[a.w]);
  }

  /** ... and as long as a worker has not finished some step changes something. */
  lemma NobodyIsStuck(p: Pool, w: nat) returns (a: Action)
    requires Conserved(p) && w < |p.workers| && !p.workers[w].Finished?
    ensures Apply(p, a) != p && (a.Call? ==> a.reply == Served)
  {
    hide Get, Update, Delete;
    a := if p.workers[w].Idle? then Take(w) else Call(w, Served);
    if p.workers[w].Busy? {
      assert Placed(p, p.workers[w].entry) && Holds(p, w, p.workers[w].entry);
      assert Apply(p, a).workers[w] != p.workers[w];
    } else {
      assert Apply(p, a).workers[w] != p.workers[w];
    }
  }

  lemma {:induction false} FinishPool(p: Pool) returns (more: seq<Action>)
    requires Conserved(p) && |p.workers| > 0
    ensures AllServed(more) && AllFinished(Run(p, more))
    decreases Work(p)
  {
    hide Conserved, Apply, Work;
    more := [];
    if w: nat :| w < |p.workers| && !p.workers[w].Finished? {
      var a := NobodyIsStuck(p, w);
      StepsEnd(p, a);
      StepConserves(p, a);
      var rest := FinishPool(Apply(p, a));
      more := [a] + rest;
    }
  }

  /** Whatever has happened in a pass so far, it can be brought to its end: nobody is left waiting. */
  lemma PassCanEnd(targets: seq<Key>, removeFinalizers: bool, c: Cluster, actions: seq<Action>)
    returns (more: seq<Action>)
    requires Fresher(c)
    ensures AllServed(more) && AllFinished(Run(Run(Fresh(targets, removeFinalizers, c), actions), more))
  {
    var f := Fresh(targets, removeFinalizers, c);
    FreshProgress(targets, removeFinalizers, c);
    RunProgress(f, actions);
    ProgressGives(Run(f, actions));
    more := FinishPool(Run(f, actions));
  }

  // ---- when a served pass records an error ----

  predicate AllServed(actions: seq<Action>) {
    forall a | a in actions :: a.Call? ==> a.reply == Served
  }

  predicate Repeats(targets: seq<Key>, c: Cluster, i: nat, j: nat) {
    i < j < |targets| && targets[i] == targets[j] && targets[i] in c.objects
  }

  /** Two entries name the same live object. */
  predicate NamedTwice(targets: seq<Key>, c: Cluster) {
    exists i, j | 0 <= i < j < |targets| :: Repeats(targets, c, i, j)
  }

  /** A worker about to write has the live version in hand. */
  predicate UpToDate(p: Pool, w: nat) {
    CanCall(p, w) && p.workers[w].stage.Write? ==>
      var k := p.targets[p.workers[w].entry];
      k in p.cluster.objects && p.cluster.objects[k].rv == p.workers[w].stage.rv
  }

  /** No two workers can meet at one object: finalizers stay, or no live object is named twice. */
  predicate Undisturbed(p: Pool, c: Cluster) {
    p.cluster.objects.Keys <= c.objects.Keys && (p.removeFinalizers ==> !NamedTwice(p.targets, c))
  }

  lemma ServedStep(p: Pool, a: Action, c: Cluster)
    requires Progress(p) && Undisturbed(p, c) && (a.Call? ==> a.reply == Served)
    requires p.failed == {} && forall w: nat :: UpToDate(p, w)
    ensures Apply(p, a).failed == {} && Undisturbed(Apply(p, a), c) && forall w: nat :: UpToDate(Apply(p, a), w)
  {
    hide Settled, Shrinks, NamedTwice;
    var q := Apply(p, a);
    if a.Call? && CanCall(p, a.w) {
      var w, entry := a.w, p.workers[a.w].entry;
      assert UpToDate(p, w) && Placed(p, entry) && Holds(p, w, entry);
      CallShrinks(p, w, a.reply);
      CallOnlyShrinks(p, w, a.reply);
      forall v: nat ensures UpToDate(q, v) {
        assert UpToDate(p, v);
        if v != w && CanCall(p, v) && p.workers[v].stage.Write? {
          assert Holds(p, v, p.workers[v].entry) && Placed(p, p.workers[v].entry);
          DifferentObjects(p, c, entry, p.workers[v].entry);
        }
      }
    } else {
      forall v: nat ensures UpToDate(q, v) {
        assert UpToDate(p, v);
      }
    }
  }

  lemma CallOnlyShrinks(p: Pool, w: nat, reply: Reply)
    requires CanCall(p, w) && Shrinks(p.cluster, ApplyCall(p, w, reply).cluster, p.removeFinalizers)
    ensures ApplyCall(p, w, reply).cluster.objects.Keys <= p.cluster.objects.Keys
  {
  }

  lemma DifferentObjects(p: Pool, c: Cluster, i: nat, j: nat)
    requires Undisturbed(p, c) && p.removeFinalizers && i != j && i < |p.targets| && j < |p.targets|
    requires p.targets[j] in p.cluster.objects
    ensures p.targets[i] != p.targets[j]
  {
    assert !Repeats(p.targets, c, i, j) && !Repeats(p.targets, c, j, i);
  }

  lemma {:induction false} ServedRun(p: Pool, actions: seq<Action>, c: Cluster)
    requires Progress(p) && Undisturbed(p, c) && AllServed(actions)
    requires p.failed == {} && forall w: nat :: UpToDate(p, w)
    ensures Run(p, actions).failed == {}
    decreases |actions|
  {
    hide Progress, Conserved, UpToDate, Apply, Fresher, Undisturbed;
    if actions != [] {
      ServedStep(p, actions[0], c);
      StepProgress(p, actions[0]);
      ProgressGives(p);
      StepConserves(p, actions[0]);
      ServedRun(Apply(p, actions[0]), actions[1..], c);
    }
  }

  /** A pass all of whose calls are served has no errors if it leaves finalizers alone or no live object is queued
      twice: the workers never get into each other's way. */
  lemma ServedPassHasNoErrors(targets: seq<Key>, removeFinalizers: bool, c: Cluster, actions: seq<Action>)
    requires Fresher(c) && AllServed(actions) && (removeFinalizers ==> !NamedTwice(targets, c))
    ensures Run(Fresh(targets, removeFinalizers, c), actions).failed == {}
  {
    hide NamedTwice;
    FreshProgress(targets, removeFinalizers, c);
    ServedRun(Fresh(targets, removeFinalizers, c), actions, c);
  }

  /** One worker takes an entry and finishes it. */
  function Handle(w: nat): seq<Action> {
    [Take(w), Call(w, Served), Call(w, Served), Call(w, Served)]
  }

  function HandleMany(w: nat, n: nat): seq<Action> {
    if n == 0 then [] else Handle(w) + HandleMany(w, n - 1)
  }

  /** The object and the other workers' hands are as they were. */
  predicate Aside(p: Pool, q: Pool, w: nat, k: Key) {
    && q.targets == p.targets && q.removeFinalizers == p.removeFinalizers && |q.workers| == |p.workers|
    && (forall v | 0 <= v < |p.workers| && v != w :: q.workers[v] == p.workers[v])
    && (k in q.cluster.objects <==> k in p.cluster.objects)
    && (k in p.cluster.objects ==> q.cluster.objects[k] == p.cluster.objects[k])
  }

  /** A step of a worker whose entry is another object. */
  lemma StepAside(p: Pool, w: nat, k: Key)
    requires Progress(p) && CanCall(p, w) && p.targets[p.workers[w].entry] != k
    ensures var q := Apply(p, Call(w, Served)); Progress(q) && Aside(p, q, w, k) && q.head == p.head
    ensures var q, stage := Apply(p, Call(w, Served)), p.workers[w].stage;
            q.workers[w].Idle? || (q.workers[w].Busy? && q.workers[w].entry == p.workers[w].entry &&
                                   ((stage.Fetch? && q.workers[w].stage.Write?)
                                    || (stage.Write? && q.workers[w].stage.Remove?)))
  {
    hide Settled, Shrinks, Conserved, Fresher;
    StepProgress(p, Call(w, Served));
    ProgressGives(p);
    CallShrinks(p, w, Served);
  }

  lemma IdleCall(p: Pool, w: nat)
    requires w < |p.workers| && p.workers[w].Idle?
    ensures Apply(p, Call(w, Served)) == p
  {
  }

  /** Calls of a worker bring it back to idle, one stage at a time. */
  lemma CallAside(p: Pool, w: nat, k: Key)
    requires Progress(p) && w < |p.workers|
    requires p.workers[w].Idle? || (CanCall(p, w) && p.targets[p.workers[w].entry] != k)
    ensures var q := Apply(p, Call(w, Served));
            && Progress(q) && Aside(p, q, w, k) && q.head == p.head
            && (q.workers[w].Idle?
                || (CanCall(q, w) && q.targets[q.workers[w].entry] != k && CanCall(p, w) && Left(q, w) < Left(p, w)))
  {
    hide Progress;
    if p.workers[w].Idle? {
      IdleCall(p, w);
    } else {
      StepAside(p, w, k);
    }
  }

  /** How many calls the worker may still need. */
  function Left(p: Pool, w: nat): nat
    requires w < |p.workers| && p.workers[w].Busy?
  {
    match p.workers[w].stage
    case Fetch => 3
    case Write(_, _) => 2
    case Remove => 1
  }

  lemma HandleEffect(p: Pool, w: nat, k: Key)
    requires Progress(p) && CanTake(p, w) && p.head < |p.targets| && p.targets[p.head] != k
    ensures var q := Run(p, Handle(w));
            Progress(q) && Aside(p, q, w, k) && q.head == p.head + 1 && q.workers[w].Idle?
  {
    hide Progress, Aside;
    var call := Call(w, Served);
    var p1 := Apply(p, Take(w));
    TakeAside(p, w, k);
    var p2 := Apply(p1, call);
    CallAside(p1, w, k);
    AsideTransitive(p, p1, p2, w, k);
    var p3 := Apply(p2, call);
    CallAside(p2, w, k);
    AsideTransitive(p, p2, p3, w, k);
    var p4 := Apply(p3, call);
    CallAside(p3, w, k);
    AsideTransitive(p, p3, p4, w, k);
    RunFour(p, Take(w), call, call, call);
  }

  lemma TakeAside(p: Pool, w: nat, k: Key)
    requires Progress(p) && CanTake(p, w) && p.head < |p.targets| && p.targets[p.head] != k
    ensures var q := Apply(p, Take(w));
            Progress(q) && Aside(p, q, w, k) && q.head == p.head + 1 && CanCall(q, w)
            && q.targets[q.workers[w].entry] != k
  {
    hide Progress;
    StepProgress(p, Take(w));
  }

  lemma AsideTransitive(p: Pool, q: Pool, r: Pool, w: nat, k: Key)
    requires Aside(p, q, w, k) && Aside(q, r, w, k)
    ensures Aside(p, r, w, k)
  {
  }

  lemma RunFour(p: Pool, a: Action, b: Action, c: Action, d: Action)
    ensures Run(p, [a, b, c, d]) == Apply(Apply(Apply(Apply(p, a), b), c), d)
  {
    hide Apply;
    var p1 := Apply(p, a);
    var p2 := Apply(p1, b);
    assert [a, b, c, d][1..] == [b, c, d] && [b, c, d][1..] == [c, d] && [c, d][1..] == [d];
    RunOne(Apply(p2, c), d);
    assert Run(p2, [c, d]) == Run(Apply(p2, c), [d]);
    assert Run(p1, [b, c, d]) == Run(p2, [c, d]);
  }

  lemma {:induction false} HandleManyEffect(p: Pool, w: nat, n: nat, k: Key)
    requires Progress(p) && CanTake(p, w) && p.head + n <= |p.targets|
    requires forall h | p.head <= h < p.head + n :: p.targets[h] != k
    ensures var q := Run(p, HandleMany(w, n));
            Progress(q) && Aside(p, q, w, k) && q.head == p.head + n && q.workers[w].Idle?
    decreases n
  {
    hide Progress, Handle;
    if n > 0 {
      var q := Run(p, Handle(w));
      HandleEffect(p, w, k);
      HandleManyEffect(q, w, n - 1, k);
      RunConcat(p, Handle(w), HandleMany(w, n - 1));
    }
  }

  lemma {:induction false} RunConcat(p: Pool, first: seq<Action>, second: seq<Action>)
    ensures Run(p, first + second) == Run(Run(p, first), second)
    decreases |first|
  {
    hide Apply;
    if first == [] {
      assert first + second == second;
    } else {
      assert (first + second)[1..] == first[1..] + second;
      RunConcat(Apply(p, first[0]), first[1..], second);
    }
  }

  /** The earliest entry that repeats a live object, and the one it repeats. */
  lemma FirstRepeat(targets: seq<Key>, c: Cluster, n: nat) returns (i: nat, j: nat)
    requires n <= |targets| && exists i: nat, j: nat | j < n :: Repeats(targets, c, i, j)
    ensures Repeats(targets, c, i, j)
    ensures forall h | 0 <= h < j && h != i :: targets[h] != targets[j]
    decreases n
  {
    if exists i: nat, j: nat | j < n - 1 :: Repeats(targets, c, i, j) {
      i, j := FirstRepeat(targets, c, n - 1);
    } else {
      i, j :| j < n && Repeats(targets, c, i, j);
      forall h | 0 <= h < j && h != i ensures targets[h] != targets[j] {
        assert !Repeats(targets, c, h, i) && !Repeats(targets, c, i, h);
      }
    }
  }

  /** A worker fetches the live object `k`, which leaves everything as it is. */
  lemma FetchLive(p: Pool, w: nat)
    requires Progress(p) && CanTake(p, w) && p.removeFinalizers && p.head < |p.targets|
             && p.targets[p.head] in p.cluster.objects
    ensures var k, q := p.targets[p.head], Run(p, [Take(w), Call(w, Served)]);
            && Progress(q) && Aside(p, q, w, k) && q.head == p.head + 1 && q.cluster == p.cluster
            && q.workers[w] == Busy(p.head,
                                    Write(p.cluster.objects[k].manifest.(finalizers := {}), p.cluster.objects[k].rv))
  {
    hide Progress;
    var p1 := Apply(p, Take(w));
    var p2 := Apply(p1, Call(w, Served));
    StepProgress(p, Take(w));
    StepProgress(p1, Call(w, Served));
    assert [Take(w), Call(w, Served)][1..] == [Call(w, Served)];
    RunOne(p1, Call(w, Served));
  }

  lemma RunOne(p: Pool, a: Action)
    ensures Run(p, [a]) == Apply(p, a)
  {
    hide Apply;
    assert [a][1..] == [];
  }

  /** Two workers hold the same version; the second write fails. */
  lemma SecondWriteFails(p: Pool, v: nat, w: nat)
    requires Progress(p) && v != w && CanCall(p, v) && CanCall(p, w)
    requires p.targets[p.workers[v].entry] == p.targets[p.workers[w].entry]
             && p.targets[p.workers[w].entry] in p.cluster.objects
    requires p.workers[v].stage.Write? && p.workers[w].stage.Write? && p.workers[v].stage.rv == p.workers[w].stage.rv
    requires p.cluster.objects[p.targets[p.workers[v].entry]].rv == p.workers[v].stage.rv
    ensures Run(p, [Call(v, Served), Call(w, Served)]).failed != {}
  {
    hide Conserved, Settled;
    var k := p.targets[p.workers[v].entry];
    var p1 := Apply(p, Call(v, Served));
    var p2 := Apply(p1, Call(w, Served));
    assert k in p1.cluster.objects ==> p1.cluster.objects[k].rv == p.cluster.clock > p.workers[w].stage.rv;
    assert p1.workers[w] == p.workers[w];
    assert p.workers[w].entry in p2.failed;
    assert [Call(v, Served), Call(w, Served)][1..] == [Call(w, Served)];
    RunOne(p1, Call(w, Served));
  }

  /** The worker holds entry i, about to write the version it fetched. */
  predicate HoldsVersion(p: Pool, w: nat, i: nat, rv: nat) {
    CanCall(p, w) && p.workers[w].entry == i && p.workers[w].stage.Write? && p.workers[w].stage.rv == rv
  }

  /** Worker `w` works up to entry i and fetches it. */
  function Approach(w: nat, n: nat): seq<Action> {
    HandleMany(w, n) + [Take(w), Call(w, Served)]
  }

  lemma ApproachEffect(p: Pool, w: nat, i: nat)
    requires Progress(p) && CanTake(p, w) && p.removeFinalizers && p.head <= i < |p.targets|
    requires p.targets[i] in p.cluster.objects && forall h | p.head <= h < i :: p.targets[h] != p.targets[i]
    ensures var k, q := p.targets[i], Run(p, Approach(w, i - p.head));
            && Progress(q) && Aside(p, q, w, k) && q.head == i + 1 && HoldsVersion(q, w, i, p.cluster.objects[k].rv)
  {
    hide Progress, Handle, HandleMany, Run;
    var k := p.targets[i];
    HandleManyEffect(p, w, i - p.head, k);
    var q := Run(p, HandleMany(w, i - p.head));
    FetchLive(q, w);
    RunConcat(p, HandleMany(w, i - p.head), [Take(w), Call(w, Served)]);
    AsideTransitive(p, q, Run(q, [Take(w), Call(w, Served)]), w, k);
  }

  /** The schedule: worker 0 works up to the first of the two entries and fetches it, worker 1 up to the second;
      then both write. */
  lemma ConflictingSchedule(targets: seq<Key>, c: Cluster) returns (actions: seq<Action>)
    requires Fresher(c) && NamedTwice(targets, c)
    ensures AllServed(actions) && Run(Fresh(targets, true, c), actions).failed != {}
  {
    hide Progress, Fresher, HandleMany, Run;
    var i, j := FirstRepeat(targets, c, |targets|);
    var k, p0 := targets[j], Fresh(targets, true, c);
    FreshProgress(targets, true, c);
    ApproachEffect(p0, 0, i);
    var p1 := Run(p0, Approach(0, i));
    ApproachEffect(p1, 1, j);
    var p2 := Run(p1, Approach(1, j - i - 1));
    SecondWriteFails(p2, 0, 1);
    HandleManyServed(0, i);
    HandleManyServed(1, j - i - 1);
    RunConcat(p0, Approach(0, i), Approach(1, j - i - 1));
    RunConcat(p0, Approach(0, i) + Approach(1, j - i - 1), [Call(0, Served), Call(1, Served)]);
    actions := Approach(0, i) + Approach(1, j - i - 1) + [Call(0, Served), Call(1, Served)];
  }

  lemma HandleManyServed(w: nat, n: nat)
    ensures AllServed(HandleMany(w, n))
  {
  }

  predicate FailsWhenServed(targets: seq<Key>, removeFinalizers: bool, c: Cluster, actions: seq<Action>) {
    AllServed(actions) && Run(Fresh(targets, removeFinalizers, c), actions).failed != {}
  }

  /** Exactly when some schedule makes a pass fail although every call is served: when it removes finalizers and
      two entries name the same live object, as two selectors that gather one object do. */
  lemma ServedPassCanFailIff(targets: seq<Key>, removeFinalizers: bool, c: Cluster)
    requires Fresher(c)
    ensures (exists actions :: FailsWhenServed(targets, removeFinalizers, c, actions)) <==>
              removeFinalizers && NamedTwice(targets, c)
  {
    hide NamedTwice, Fresher;
    forall actions | FailsWhenServed(targets, removeFinalizers, c, actions)
      ensures removeFinalizers && NamedTwice(targets, c)
    {
      if removeFinalizers ==> !NamedTwice(targets, c) {
        ServedPassHasNoErrors(targets, removeFinalizers, c, actions);
      }
    }
    if removeFinalizers && NamedTwice(targets, c) {
      var actions := ConflictingSchedule(targets, c);
      assert FailsWhenServed(targets, removeFinalizers, c, actions);
    }
  }

  predicate DistinctTargets(targets: seq<Key>) {
    forall i, j | 0 <= i < j < |targets| :: targets[i] != targets[j]
  }
}
