/** The invariant of the owners-first worklist: counters, queue and completed objects agree with the graph. */
module Worklist {
  import opened Results
  import opened Kube
  import opened ArchivePath
  import opened OwnerRefs
  import opened DependencyGraph
  import opened Fixpoint

  /** Owner entries of `i` still outstanding when `done` is complete and the dependents in `seen` have been told. */
  function Outstanding(graph: map<ObjInfo, seq<string>>, done: set<string>, seen: multiset<ObjInfo>, i: ObjInfo): int
    requires i in graph
  {
    Pending(graph[i], done) - seen[i]
  }

  /** Each counter is the number of outstanding entries, and an object has been queued exactly when that
      number is zero; `attempted` are the objects already taken off the queue. */
  ghost predicate Agrees(graph: map<ObjInfo, seq<string>>, counters: map<string, nat>, queue: seq<ObjInfo>,
                         attempted: set<ObjInfo>, done: set<string>, seen: multiset<ObjInfo>)
  {
    && NoDuplicates(queue)
    && attempted <= graph.Keys
    && (forall i | i in queue :: i in graph && i !in attempted)
    && (forall i | i in graph :: AgreesAt(graph, counters, queue, attempted, done, seen, i))
  }

  ghost predicate AgreesAt(graph: map<ObjInfo, seq<string>>, counters: map<string, nat>, queue: seq<ObjInfo>,
                           attempted: set<ObjInfo>, done: set<string>, seen: multiset<ObjInfo>, i: ObjInfo)
    requires i in graph
  {
    var left := Outstanding(graph, done, seen, i);
    && left >= 0
    && (graph[i] != [] ==> i.configPath in counters && counters[i.configPath] == left)
    && (i in queue || i in attempted <==> left == 0)
  }

  lemma AgreesInitially(graph: map<ObjInfo, seq<string>>, counters: map<string, nat>,
                        dependents: map<string, seq<ObjInfo>>, queue: seq<ObjInfo>)
    requires Represents(graph, counters, dependents, queue)
    ensures Agrees(graph, counters, queue, {}, {}, multiset{}) && ListsDependents(graph, dependents)
  {
    forall i | i in graph ensures AgreesAt(graph, counters, queue, {}, {}, multiset{}, i) {
      PendingNone(graph[i]);
    }
  }

  lemma AgreesAfterPop(graph: map<ObjInfo, seq<string>>, counters: map<string, nat>, queue: seq<ObjInfo>,
                       attempted: set<ObjInfo>, done: set<string>, seen: multiset<ObjInfo>)
    requires queue != [] && Agrees(graph, counters, queue, attempted, done, seen)
    ensures Agrees(graph, counters, queue[1..], attempted + {queue[0]}, done, seen)
    ensures queue[0] in graph && queue[0] !in attempted && Outstanding(graph, done, seen, queue[0]) == 0
  {
    assert AgreesAt(graph, counters, queue, attempted, done, seen, queue[0]);
    forall i | i in graph ensures AgreesAt(graph, counters, queue[1..], attempted + {queue[0]}, done, seen, i) {
      assert AgreesAt(graph, counters, queue, attempted, done, seen, i);
      assert i in queue <==> i == queue[0] || i in queue[1..];
    }
  }

  /** While the dependents of `path` are told one by one, the next one still waits. */
  lemma NextStillWaits(graph: map<ObjInfo, seq<string>>, lists: map<string, seq<ObjInfo>>, path: string,
                       dependents: seq<ObjInfo>, k: nat, done: set<string>)
    requires ListsDependents(graph, lists) && path !in done && k < |dependents|
    requires dependents == if path in lists then lists[path] else []
    ensures dependents[k] in graph && Outstanding(graph, done, multiset(dependents[..k]), dependents[k]) > 0
    ensures multiset(dependents[..k + 1]) == multiset(dependents[..k]) + multiset{dependents[k]}
  {
    var dependent := dependents[k];
    assert dependents[..k + 1] == dependents[..k] + [dependent];
    PrefixCount(dependents, k);
    assert Edges(lists, path, dependent) >= multiset(dependents[..k])[dependent] + 1;
    PendingAfter(graph[dependent], done, path);
  }

  lemma AllTold(graph: map<ObjInfo, seq<string>>, lists: map<string, seq<ObjInfo>>, path: string,
                dependents: seq<ObjInfo>)
    requires ListsDependents(graph, lists)
    requires dependents == if path in lists then lists[path] else []
    ensures forall i | i in graph :: multiset(dependents)[i] == multiset(graph[i])[path]
  {
    forall i | i in graph ensures multiset(dependents)[i] == multiset(graph[i])[path] {
      assert Edges(lists, path, i) == multiset(graph[i])[path];
    }
  }

  /** Telling one dependent: its counter drops, and it is queued when that was its last owner. */
  lemma AgreesAfterTelling(graph: map<ObjInfo, seq<string>>, counters: map<string, nat>, queue: seq<ObjInfo>,
                           attempted: set<ObjInfo>, done: set<string>, seen: multiset<ObjInfo>, dep: ObjInfo)
    requires Agrees(graph, counters, queue, attempted, done, seen) && DistinctPaths(graph.Keys)
    requires dep in graph && Outstanding(graph, done, seen, dep) > 0
    ensures dep.configPath in counters && counters[dep.configPath] > 0
    ensures var left := counters[dep.configPath] - 1;
            Agrees(graph, counters[dep.configPath := left], if left == 0 then queue + [dep] else queue,
                   attempted, done, seen + multiset{dep})
  {
    assert AgreesAt(graph, counters, queue, attempted, done, seen, dep);
    var left := counters[dep.configPath] - 1;
    var queue' := if left == 0 then queue + [dep] else queue;
    forall i | i in graph
      ensures AgreesAt(graph, counters[dep.configPath := left], queue', attempted, done, seen + multiset{dep}, i)
    {
      assert AgreesAt(graph, counters, queue, attempted, done, seen, i);
      assert i != dep ==> i.configPath != dep.configPath;
      assert i in queue' <==> i in queue || (left == 0 && i == dep);
    }
    assert dep !in queue;
  }

  /** Once all dependents of `p` have been told, `p` is settled. */
  lemma AgreesWhenSettled(graph: map<ObjInfo, seq<string>>, counters: map<string, nat>, queue: seq<ObjInfo>,
                          attempted: set<ObjInfo>, done: set<string>, told: multiset<ObjInfo>, p: string)
    requires Agrees(graph, counters, queue, attempted, done, told) && p !in done
    requires forall i | i in graph :: told[i] == multiset(graph[i])[p]
    ensures Agrees(graph, counters, queue, attempted, done + {p}, multiset{})
  {
    forall i | i in graph ensures AgreesAt(graph, counters, queue, attempted, done + {p}, multiset{}, i) {
      assert AgreesAt(graph, counters, queue, attempted, done, told, i);
      PendingAfter(graph[i], done, p);
    }
  }

  /** Every restored object comes after each owner it waited for. */
  predicate InOrder(owners: map<string, seq<string>>, log: seq<string>) {
    forall k | 0 <= k < |log| :: log[k] in owners && forall o | o in owners[log[k]] :: o in log[..k]
  }

  lemma InOrderAppend(owners: map<string, seq<string>>, log: seq<string>, p: string)
    requires InOrder(owners, log) && p in owners && forall o | o in owners[p] :: o in log
    ensures InOrder(owners, log + [p])
  {
    var more := log + [p];
    forall k | 0 <= k < |more| ensures more[k] in owners && forall o | o in owners[more[k]] :: o in more[..k] {
      assert more[..k] == log[..k];
      if k < |log| {
        assert more[k] == log[k];
      } else {
        assert log[..k] == log;
      }
    }
  }

  function Elements(log: seq<string>): set<string> {
    set p | p in log
  }

  /** Whatever was restored in order lies in every closed set. */
  lemma InOrderInsideClosed(pr: Problem, log: seq<string>, T: set<string>, k: nat)
    requires InOrder(pr.owners, log) && Elements(log) <= pr.good && Elements(log) !! pr.before
    requires Closed(pr, T) && k <= |log|
    ensures Elements(log[..k]) <= T
  {
    if k > 0 {
      InOrderInsideClosed(pr, log, T, k - 1);
      var n := log[k - 1];
      assert log[..k] == log[..k - 1] + [n];
      assert n in Elements(log);
      assert forall o | o in pr.owners[n] :: o in Elements(log[..k - 1]);
      assert n in Step(pr, T);
    }
  }

  /** What a phase has done so far: the paths restored, the paths handed to restoreResource, the paths
      that failed, and the objects taken off the queue. */
  datatype Books = Books(done: seq<string>, tried: seq<string>, errors: seq<string>, attempted: set<ObjInfo>)

  ghost predicate Balanced(graph: map<ObjInfo, seq<string>>, b: Books, before: set<string>)
    requires DistinctPaths(graph.Keys)
  {
    && InOrder(ByPath(graph), b.done) && NoDuplicates(b.done) && NoDuplicates(b.tried)
    && Elements(b.done) !! before && Elements(b.done) !! Elements(b.errors)
    && Elements(b.tried) == Elements(b.done) + Elements(b.errors)
    && b.attempted <= graph.Keys
    && Elements(b.tried) <= Paths(b.attempted) <= Elements(b.tried) + before
  }

  lemma ElementsAppend(log: seq<string>, p: string)
    ensures Elements(log + [p]) == Elements(log) + {p}
  {
  }

  lemma ElementsNothing()
    ensures Elements([]) == {}
  {
  }

  function Failure(err: Option<string>): seq<string> {
    if err.Some? then [err.value] else []
  }

  lemma ElementsOne(err: Option<string>)
    ensures Elements(Failure(err)) == if err.Some? then {err.value} else {}
  {
  }

  lemma ElementsConcat(a: seq<string>, b: seq<string>)
    ensures Elements(a + b) == Elements(a) + Elements(b)
  {
  }

  lemma MembersAreElements(log: seq<string>)
    ensures forall p :: p in log <==> p in Elements(log)
  {
  }

  lemma BalancedInitially(graph: map<ObjInfo, seq<string>>, before: set<string>)
    requires DistinctPaths(graph.Keys)
    ensures Balanced(graph, Books([], [], [], {}), before) && Elements([]) == {}
  {
  }

  lemma BalancedGives(graph: map<ObjInfo, seq<string>>, b: Books, before: set<string>)
    requires DistinctPaths(graph.Keys) && Balanced(graph, b, before)
    ensures InOrder(ByPath(graph), b.done) && NoDuplicates(b.done) && NoDuplicates(b.tried)
    ensures Elements(b.done) !! before && Elements(b.done) !! Elements(b.errors)
    ensures Elements(b.tried) == Elements(b.done) + Elements(b.errors) <= Paths(graph.Keys)
  {
  }

  lemma NotTriedYet(graph: map<ObjInfo, seq<string>>, b: Books, before: set<string>, i: ObjInfo)
    requires DistinctPaths(graph.Keys) && Balanced(graph, b, before)
    requires i in graph && i !in b.attempted
    ensures i.configPath !in b.tried && i.configPath !in b.done && i.configPath !in b.errors
    ensures i.configPath !in Elements(b.tried) && Elements(b.done) <= Elements(b.tried)
  {
    assert i.configPath !in Paths(b.attempted);
    assert i.configPath !in Elements(b.tried);
  }

  lemma PathsAdd(infos: set<ObjInfo>, i: ObjInfo)
    ensures Paths(infos + {i}) == Paths(infos) + {i.configPath}
  {
  }

  lemma BalancedAfterSkip(graph: map<ObjInfo, seq<string>>, b: Books, before: set<string>, i: ObjInfo)
    requires DistinctPaths(graph.Keys) && Balanced(graph, b, before)
    requires i in graph && i !in b.attempted && i.configPath in before + Elements(b.done)
    ensures Balanced(graph, b.(attempted := b.attempted + {i}), before)
  {
    PathsAdd(b.attempted, i);
  }

  lemma BalancedAfterFailure(graph: map<ObjInfo, seq<string>>, b: Books, before: set<string>, i: ObjInfo)
    requires DistinctPaths(graph.Keys) && Balanced(graph, b, before)
    requires i in graph && i !in b.attempted
    ensures Balanced(graph, Books(b.done, b.tried + [i.configPath], b.errors + [i.configPath], b.attempted + {i}),
                     before)
  {
    NotTriedYet(graph, b, before, i);
    PathsAdd(b.attempted, i);
    ElementsAppend(b.tried, i.configPath);
    ElementsAppend(b.errors, i.configPath);
  }

  lemma BalancedAfterSuccess(graph: map<ObjInfo, seq<string>>, b: Books, before: set<string>, i: ObjInfo)
    requires DistinctPaths(graph.Keys) && Balanced(graph, b, before)
    requires i in graph && i !in b.attempted && i.configPath !in before
    requires forall o | o in graph[i] :: o in Elements(b.done)
    ensures Balanced(graph, Books(b.done + [i.configPath], b.tried + [i.configPath], b.errors, b.attempted + {i}),
                     before)
  {
    hide InOrder, NoDuplicates, Elements, Paths;
    NotTriedYet(graph, b, before, i);
    NoDuplicatesAppend(b.done, i.configPath);
    NoDuplicatesAppend(b.tried, i.configPath);
    MembersAreElements(b.done);
    MembersAreElements(b.errors);
    InOrderAppend(ByPath(graph), b.done, i.configPath);
    PathsAdd(b.attempted, i);
    ElementsAppend(b.tried, i.configPath);
    ElementsAppend(b.done, i.configPath);
  }

  /** An exhausted worklist has restored exactly the restorable objects. */
  lemma ExhaustedIsRestorable(graph: map<ObjInfo, seq<string>>, counters: map<string, nat>, b: Books,
                              before: set<string>)
    requires DistinctPaths(graph.Keys)
    requires Agrees(graph, counters, [], b.attempted, Elements(b.done), multiset{})
    requires Balanced(graph, b, before)
    ensures Elements(b.done) ==
            Restorable(Problem(ByPath(graph), Paths(graph.Keys) - Elements(b.errors), before))
  {
    var pr := Problem(ByPath(graph), Paths(graph.Keys) - Elements(b.errors), before);
    var done := Elements(b.done);
    assert Closed(pr, done) by {
      forall n | n in Step(pr, done) ensures n in done {
        var i :| i in graph && i.configPath == n;
        PendingZero(graph[i], done);
        assert AgreesAt(graph, counters, [], b.attempted, done, multiset{}, i);
        assert n in Paths(b.attempted);
      }
    }
    assert done <= pr.good by {
      forall n | n in done ensures n in pr.good {
        var k :| 0 <= k < |b.done| && b.done[k] == n;
      }
    }
    forall T | Closed(pr, T) ensures done <= T {
      InOrderInsideClosed(pr, b.done, T, |b.done|);
      assert b.done[..|b.done|] == b.done;
    }
    RestorableUnique(pr, done);
  }

  /** What a phase over the archived objects `loaded` achieves when `before` was restored earlier and
      `errors` failed: exactly the restorable objects, each once and after its owners. */
  ghost predicate PhaseExact(loaded: Manifests, mapper: RestMapper, before: set<string>, errors: seq<string>,
                             done: seq<string>) {
    && DistinctPaths(loaded.Keys)
    && InOrder(Waits(loaded, mapper, before), done) && NoDuplicates(done)
    && Elements(done) == Restorable(Problem(Waits(loaded, mapper, before),
                                            Waits(loaded, mapper, before).Keys - Elements(errors), before))
    && Elements(done) !! before && Elements(done) !! Elements(errors)
  }

  lemma PhaseIsExact(loaded: Manifests, mapper: RestMapper, before: set<string>, errors: seq<string>, done: seq<string>)
    requires DistinctPaths(loaded.Keys) && DistinctPaths(Graph(loaded, mapper, before).Keys)
    requires var graph := Graph(loaded, mapper, before);
             && InOrder(ByPath(graph), done) && NoDuplicates(done)
             && Elements(done) == Restorable(Problem(ByPath(graph), Paths(graph.Keys) - Elements(errors), before))
             && Elements(done) !! before && Elements(done) !! Elements(errors)
    ensures PhaseExact(loaded, mapper, before, errors, done)
            && Paths(Graph(loaded, mapper, before).Keys) <= Paths(loaded.Keys)
  {
    hide Restorable, InOrder, NoDuplicates, Elements;
    GraphKeys(loaded, mapper, before);
  }

  /** Two runs of a phase in which no object fails in one and succeeds in the other restore the same
      objects, whatever order Go's maps and the queue put them in. */
  lemma PhaseOrderIrrelevant(loaded: Manifests, mapper: RestMapper, before: set<string>, f: set<string>,
                             errors1: seq<string>, done1: seq<string>, errors2: seq<string>, done2: seq<string>)
    requires PhaseExact(loaded, mapper, before, errors1, done1) && PhaseExact(loaded, mapper, before, errors2, done2)
    requires Elements(done1) <= f && Elements(errors1) !! f
    requires Elements(done2) <= f && Elements(errors2) !! f
    ensures Elements(done1) == Elements(done2) == Restorable(Problem(Waits(loaded, mapper, before), f, before))
  {
    hide Restorable, InOrder, NoDuplicates, Waits;
    OutcomesDetermine(Waits(loaded, mapper, before), before, Elements(errors1), Elements(done1), f);
    OutcomesDetermine(Waits(loaded, mapper, before), before, Elements(errors2), Elements(done2), f);
  }

  /** Every owner the object may wait for was restored before position `k` of the log. */
  ghost predicate AfterOwners(i: ObjInfo, m: Manifest, mapper: RestMapper, log: seq<string>, k: nat)
    requires k <= |log|
  {
    forall r | 0 <= r < |RefsOf(m)| && Eligible(RefsOf(m)[r], mapper, i.namespace).Some? ::
      OwnerPath(Eligible(RefsOf(m)[r], mapper, i.namespace).value.key) in log[..k]
  }

  ghost predicate OwnersFirst(loaded: Manifests, mapper: RestMapper, log: seq<string>, start: nat) {
    forall k, i | start <= k < |log| && i in loaded && i.configPath == log[k] ::
      AfterOwners(i, loaded[i], mapper, log, k)
  }

  lemma AfterOwnersAt(loaded: Manifests, mapper: RestMapper, log0: seq<string>, done: seq<string>, d: nat, i: ObjInfo)
    requires DistinctPaths(loaded.Keys)
    requires InOrder(Waits(loaded, mapper, Elements(log0)), done)
    requires d < |done| && i in loaded && i.configPath == done[d]
    ensures AfterOwners(i, loaded[i], mapper, log0 + done, |log0| + d)
  {
    hide Eligible, OwnerPath, Skipped, CountedOwners;
    var before, owners := Elements(log0), OwnersOf(i, loaded[i], mapper, Elements(log0));
    assert (log0 + done)[..|log0| + d] == log0 + done[..d];
    WaitsAt(loaded, mapper, before, i);
    assert forall o | o in owners :: o in done[..d];
    var refs := RefsOf(loaded[i]);
    forall r | 0 <= r < |refs| && Eligible(refs[r], mapper, i.namespace).Some?
      ensures OwnerPath(Eligible(refs[r], mapper, i.namespace).value.key) in log0 + done[..d]
    {
      EligibleOwnersAccounted(refs, mapper, i.namespace, before, r);
    }
  }

  /** Owners before dependents: counted owners come earlier in the phase, and a cluster-scoped owner that
      was not counted was restored by an earlier step. */
  lemma PhaseOwnersFirst(loaded: Manifests, mapper: RestMapper, log0: seq<string>, done: seq<string>)
    requires DistinctPaths(loaded.Keys)
    requires InOrder(Waits(loaded, mapper, Elements(log0)), done)
    ensures OwnersFirst(loaded, mapper, log0 + done, |log0|)
  {
    hide InOrder, AfterOwners, Waits;
    var log := log0 + done;
    forall k, i | |log0| <= k < |log| && i in loaded && i.configPath == log[k]
      ensures AfterOwners(i, loaded[i], mapper, log, k)
    {
      AfterOwnersAt(loaded, mapper, log0, done, k - |log0|, i);
    }
  }

  lemma OwnersFirstExtend(loaded: Manifests, mapper: RestMapper, log: seq<string>, more: seq<string>, start: nat)
    requires OwnersFirst(loaded, mapper, log, start)
    requires forall i | i in loaded :: i.configPath !in more
    ensures OwnersFirst(loaded, mapper, log + more, start)
  {
    hide Eligible, OwnerPath;
    assert forall k | |log| <= k < |log + more| :: (log + more)[k] in more;
    forall k, i | start <= k < |log + more| && i in loaded && i.configPath == (log + more)[k]
      ensures AfterOwners(i, loaded[i], mapper, log + more, k)
    {
      assert k < |log|;
      assert AfterOwners(i, loaded[i], mapper, log, k);
      assert (log + more)[..k] == log[..k];
    }
  }

  /** Phases over different objects never try the same path. */
  lemma TriedOnce(tried1: seq<string>, tried2: seq<string>, A: set<ObjInfo>, B: set<ObjInfo>)
    requires NoDuplicates(tried1) && NoDuplicates(tried2)
    requires Elements(tried1) <= Paths(A) && Elements(tried2) <= Paths(B)
    requires A !! B && Distinct(A + B)
    ensures NoDuplicates(tried1 + tried2)
  {
    hide Paths, NoDuplicates;
    PathsDisjoint(A, B);
    forall p | p in tried1 ensures p !in tried2 {
      assert p in Elements(tried1);
      assert p !in Elements(tried2);
    }
    NoDuplicatesConcat(tried1, tried2);
  }

  lemma TriedCrds(A: set<ObjInfo>, done: seq<string>, err: Option<string>, tried: seq<string>)
    requires tried == done + Failure(err)
    requires NoDuplicates(done) && Elements(done) <= Paths(A)
    requires err.Some? ==> err.value in Paths(A) - Elements(done)
    ensures NoDuplicates(tried) && Elements(tried) <= Paths(A)
  {
    hide Paths;
    if err.Some? {
      NoDuplicatesAppend(done, err.value);
    } else {
      assert tried == done;
    }
  }

  lemma PathsUnion(A: set<ObjInfo>, B: set<ObjInfo>)
    ensures Paths(A + B) == Paths(A) + Paths(B)
  {
  }

  lemma PathsDisjoint(A: set<ObjInfo>, B: set<ObjInfo>)
    requires A !! B && Distinct(A + B)
    ensures Paths(A) !! Paths(B)
  {
  }

  lemma OwnersFirstNothing(loaded: Manifests, mapper: RestMapper, log: seq<string>)
    ensures OwnersFirst(loaded, mapper, log, |log|)
  {
  }

  /** A phase over other objects does not disturb the order of an earlier one. */
  lemma OwnersFirstStays(loaded: Manifests, mapper: RestMapper, log: seq<string>, done: seq<string>, start: nat,
                         others: set<ObjInfo>)
    requires OwnersFirst(loaded, mapper, log, start)
    requires Elements(done) <= Paths(others) && loaded.Keys !! others && Distinct(loaded.Keys + others)
    ensures OwnersFirst(loaded, mapper, log + done, start)
  {
    hide OwnersFirst;
    PathsDisjoint(loaded.Keys, others);
    forall i | i in loaded ensures i.configPath !in done {
      assert i.configPath in Paths(loaded.Keys);
      assert i.configPath !in Elements(done);
    }
    OwnersFirstExtend(loaded, mapper, log, done, start);
  }

  lemma PhaseExactGives(loaded: Manifests, mapper: RestMapper, before: set<string>, errors: seq<string>,
                        done: seq<string>)
    requires PhaseExact(loaded, mapper, before, errors, done)
    ensures DistinctPaths(loaded.Keys) && InOrder(Waits(loaded, mapper, before), done)
    ensures Elements(done) <= Paths(loaded.Keys)
  {
    GraphKeys(loaded, mapper, before);
  }
}
