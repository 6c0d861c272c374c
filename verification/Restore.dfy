/** The restore of one archive: objects go to the API server owners first. */
module Restore {
  import opened Results
  import opened Kube
  import opened ArchivePath
  import opened OwnerRefs
  import opened DependencyGraph
  import opened Fixpoint
  import opened RestoreResource
  import opened Ledger
  import opened Worklist
  import WorklistMeasure

  /** How far the three phases of OnRestoreChange got, and what failed in them. */
  datatype Report = Report(phases: nat, crdError: Option<string>, clusterErrors: seq<string>,
                           namespacedErrors: seq<string>)

  /** A phase's share of a run. */
  function PartOf(objects: Manifests, done: seq<string>, errors: seq<string>): Part {
    Part(objects, Elements(done), Elements(done) + Elements(errors))
  }

  /** Why a path failed: an API call for it failed, or it has a reference discovery cannot resolve. */
  ghost predicate FailedFor(objects: Manifests, mapper: RestMapper, faults: map<string, Fault>, path: string) {
    exists i | i in objects ::
      i.configPath == path
      && (!Succeeds(i, objects[i], FaultOf(faults, i)) || HasUnresolvable(objects[i], mapper, i.namespace))
  }

  /** A phase's result: exactly the restorable objects, every one of them and every failure for a reason. */
  ghost predicate PhaseOutcome(loaded: Manifests, mapper: RestMapper, faults: map<string, Fault>, before: set<string>,
                               errors: seq<string>, done: seq<string>)
  {
    && PhaseExact(loaded, mapper, before, errors, done)
    && (forall i | i in loaded && i.configPath in Elements(done) :: Succeeds(i, loaded[i], FaultOf(faults, i)))
    && (forall p | p in errors :: FailedFor(GeneratedAll(loaded, mapper, before), mapper, faults, p))
  }

  lemma OutcomeIsExact(loaded: Manifests, mapper: RestMapper, faults: map<string, Fault>, before: set<string>,
                       errors: seq<string>, done: seq<string>)
    requires PhaseOutcome(loaded, mapper, faults, before, errors, done)
    ensures PhaseExact(loaded, mapper, before, errors, done)
  {
    hide PhaseExact, FailedFor, Elements;
  }

  lemma RecordedSucceed(a: Account, start: Cluster, loaded: Manifests, mapper: RestMapper, before: set<string>,
                        faults: map<string, Fault>, done: set<string>)
    requires Recorded(a, start, GeneratedAll(loaded, mapper, before), faults, done)
    ensures forall i | i in loaded && i.configPath in done :: Succeeds(i, loaded[i], FaultOf(faults, i))
  {
    hide Effective, Survives, Renews, Skipped, OwnersOf, HasRejected, FaultOf;
    forall i | i in loaded && i.configPath in done ensures Succeeds(i, loaded[i], FaultOf(faults, i)) {
      assert RecordedAt(a, start, i, GeneratedAll(loaded, mapper, before)[i], faults);
    }
  }

  function SucceedingPaths(loaded: Manifests, faults: map<string, Fault>): set<string> {
    set i | i in loaded && Succeeds(i, loaded[i], FaultOf(faults, i)) :: i.configPath
  }

  /** Whatever the order of Go's maps: over resolvable references any two runs of a phase restore the same objects,
      those the API calls let through and whose owners are among them. */
  lemma ResolvablePhaseIsDetermined(loaded: Manifests, mapper: RestMapper, faults: map<string, Fault>,
                                    before: set<string>,
                                    errors1: seq<string>, done1: seq<string>, errors2: seq<string>, done2: seq<string>)
    requires PhaseOutcome(loaded, mapper, faults, before, errors1, done1)
    requires PhaseOutcome(loaded, mapper, faults, before, errors2, done2)
    requires forall i | i in loaded :: !HasUnresolvable(Generated(i, loaded[i], mapper, before), mapper, i.namespace)
    ensures Elements(done1) == Elements(done2) ==
            Restorable(Problem(Waits(loaded, mapper, before), SucceedingPaths(loaded, faults), before))
  {
    hide Restorable, InOrder, NoDuplicates, Waits, PhaseExact, SucceedingPaths;
    OutcomeBounds(loaded, mapper, faults, before, errors1, done1);
    OutcomeBounds(loaded, mapper, faults, before, errors2, done2);
    PhaseOrderIrrelevant(loaded, mapper, before, SucceedingPaths(loaded, faults), errors1, done1, errors2, done2);
  }

  lemma OutcomeBounds(loaded: Manifests, mapper: RestMapper, faults: map<string, Fault>, before: set<string>,
                      errors: seq<string>, done: seq<string>)
    requires PhaseOutcome(loaded, mapper, faults, before, errors, done)
    requires forall i | i in loaded :: !HasUnresolvable(Generated(i, loaded[i], mapper, before), mapper, i.namespace)
    ensures Elements(done) <= SucceedingPaths(loaded, faults) && Elements(errors) !! SucceedingPaths(loaded, faults)
  {
    hide HasUnresolvable, Skipped, OwnersOf, HasRejected, InOrder, NoDuplicates, Restorable, Waits, FaultOf;
    PhaseExactGives(loaded, mapper, before, errors, done);
    forall p | p in Elements(done) ensures p in SucceedingPaths(loaded, faults) {
      assert p in Paths(loaded.Keys);
    }
    forall p | p in errors ensures p !in SucceedingPaths(loaded, faults) {
      var i :| i in loaded && i.configPath == p
          && !Succeeds(i, GeneratedAll(loaded, mapper, before)[i], FaultOf(faults, i));
      forall j | j in loaded && j.configPath == p ensures !Succeeds(j, loaded[j], FaultOf(faults, j)) {
        assert j == i;
      }
    }
  }

  /** The exception: an object that refers to a live owner, to a role, which nothing waits for, and to something
      discovery cannot resolve. It is restored, without references, if the role is not there yet, and fails if it is. */
  lemma RoleDecides(c: Cluster, mapper: RestMapper, info: ObjInfo, m: Manifest, owner: OwnerRef, role: OwnerRef,
                    bad: OwnerRef)
    requires m.ownerRefs == Some([owner, role, bad]) && !RegistrationSecret(info, m)
    requires NamesOwner(owner) && Passes(owner, c, mapper, info.namespace)
    requires NamesOwner(role) && OwnerOf(role, mapper, info.namespace).Some?
    requires CannotResolve(bad, mapper, info.namespace)
    ensures Restored(c, mapper, None, info, m).ok <==> OwnerOf(role, mapper, info.namespace).value.key !in c.objects
  {
    hide OwnerOf, Put;
    var ns := info.namespace;
    var refs := [owner, role, bad];
    assert refs[..2] == [owner, role] && refs[..2][..1] == [owner] && [owner][..0] == [];
    assert ResolveRefs([], c, mapper, ns) == Ok([]);
    assert ResolveRefs([owner], c, mapper, ns).Ok?;
    var two := ResolveRefs([owner, role], c, mapper, ns);
    if OwnerOf(role, mapper, ns).value.key in c.objects {
      assert two.Ok?;
      assert ResolveRefs(refs, c, mapper, ns) == Err(Unresolvable);
    } else {
      assert two == Err(OwnerNotFound);
      assert ResolveRefs(refs, c, mapper, ns) == Err(OwnerNotFound);
    }
  }

  class RestoreRun {
    const mapper: RestMapper
    const faults: map<string, Fault>

    /** mergeVersionsFromLiveCRD on the content of a CRD and of its live counterpart. */
    const merge: Merge

    var crds: Manifests
    var clusterScoped: Manifests
    var namespaced: Manifests

    var created: set<string>
    var numOwnerReferences: map<string, nat>
    var ownerToDependents: map<string, seq<ObjInfo>>
    var toRestore: seq<ObjInfo>

    var cluster: Cluster

    /** The graph of the current phase, the paths in the order they were restored and tried, and what the run
        has written and lost, for specifications only. */
    ghost var graph: map<ObjInfo, seq<string>>
    ghost var log: seq<string>
    ghost var attempts: seq<string>
    ghost var written: map<Key, Manifest>
    ghost var gone: set<Key>

    ghost function Balance(): Account
      reads this`cluster, this`written, this`gone
    {
      Account(cluster, written, gone)
    }

    constructor (mapper: RestMapper, faults: map<string, Fault>, merge: Merge,
                 crds: Manifests, clusterScoped: Manifests, namespaced: Manifests, cluster: Cluster)
      ensures this.mapper == mapper && this.faults == faults && this.merge == merge && this.cluster == cluster
      ensures this.crds == crds && this.clusterScoped == clusterScoped && this.namespaced == namespaced
      ensures created == {} && log == [] && attempts == [] && written == map[] && gone == {}
    {
      this.mapper, this.faults, this.merge, this.cluster := mapper, faults, merge, cluster;
      this.crds, this.clusterScoped, this.namespaced := crds, clusterScoped, namespaced;
      created, numOwnerReferences, ownerToDependents, toRestore := {}, map[], map[], [];
      graph, log, attempts, written, gone := map[], [], [], map[], {};
    }

    /** Adds one object to the adjacency list of each owner it waits for. */
    method AddToOwners(info: ObjInfo, m: Manifest) returns (numOwners: nat, rejected: bool)
      modifies this`ownerToDependents
      ensures numOwners == |OwnersOf(info, m, mapper, created)|
      ensures rejected == HasRejected(RefsOf(m), mapper, info.namespace)
      ensures ownerToDependents == AppendToAll(old(ownerToDependents), OwnersOf(info, m, mapper, created), info)
    {
      numOwners, rejected := 0, false;
      var refs := RefsOf(m);
      for k := 0 to |refs|
        invariant numOwners == |CountedOwners(refs[..k], mapper, info.namespace, created)|
        invariant rejected == HasRejected(refs[..k], mapper, info.namespace)
        invariant ownerToDependents ==
                  AppendToAll(old(ownerToDependents), CountedOwners(refs[..k], mapper, info.namespace, created), info)
      {
        CountedOwnersSnoc(refs, k, mapper, info.namespace, created);
        HasRejectedSnoc(refs, k, mapper, info.namespace);
        var owner := Eligible(refs[k], mapper, info.namespace);
        if owner.None? {
          rejected := true;
          continue;
        }
        var path := OwnerPath(owner.value.key);
        if !owner.value.namespaced && path in created {
          continue;
        }
        ghost var before := CountedOwners(refs[..k], mapper, info.namespace, created);
        ghost var dependents := ownerToDependents;
        if path !in ownerToDependents {
          ownerToDependents := ownerToDependents[path := [info]];
          assert [] + [info] == [info];
        } else {
          ownerToDependents := ownerToDependents[path := ownerToDependents[path] + [info]];
        }
        assert ownerToDependents == AppendTo(dependents, path, info);
        AppendToAllSnoc(old(ownerToDependents), before, path, info);
        numOwners := numOwners + 1;
      }
      assert refs[..|refs|] == refs;
    }

    ghost predicate PhaseReady(objects: Manifests)
      reads this
    {
      && graph == Graph(objects, mapper, created)
      && DistinctPaths(graph.Keys)
      && Represents(graph, numOwnerReferences, ownerToDependents, toRestore)
    }

    /** One object's share of the graph: counted among its owners' dependents, or ready at once. */
    method AddObject(info: ObjInfo, m: Manifest) returns (written: Manifest)
      requires !Skipped(info, m) && info !in graph && DistinctPaths(graph.Keys + {info})
      requires Represents(graph, numOwnerReferences, ownerToDependents, toRestore)
      modifies this`numOwnerReferences, this`ownerToDependents, this`toRestore, this`graph
      ensures graph == old(graph)[info := OwnersOf(info, m, mapper, created)]
      ensures Represents(graph, numOwnerReferences, ownerToDependents, toRestore)
      ensures written == Generated(info, m, mapper, created)
    {
      hide Represents, OwnersOf, HasRejected, AppendToAll;
      ghost var owners := OwnersOf(info, m, mapper, created);
      ghost var before, dependents := graph, ownerToDependents;
      written, graph := m, graph[info := owners];
      if m.ownerRefs.None? {
        NoReferences(info, m, mapper, created);
        RepresentsReady(before, numOwnerReferences, ownerToDependents, toRestore, info);
        toRestore := toRestore + [info];
        return;
      }
      var numOwners, rejected := AddToOwners(info, m);
      if numOwners > 0 {
        RepresentsCounted(before, numOwnerReferences, dependents, toRestore, info, owners);
        numOwnerReferences := numOwnerReferences[info.configPath := numOwners];
      } else {
        assert owners == [];
        AppendToNone(dependents, info);
        RepresentsReady(before, numOwnerReferences, dependents, toRestore, info);
        if rejected {
          written := m.(ownerRefs := None);
        }
        toRestore := toRestore + [info];
      }
    }

    /** Builds counters, adjacency lists and the first worklist of a phase, in whatever order Go's map
        iteration presents the objects, and returns the objects as the phase will write them. */
    method GenerateDependencyGraph(objects: Manifests) returns (generated: Manifests)
      requires DistinctPaths(objects.Keys)
      modifies this`numOwnerReferences, this`ownerToDependents, this`toRestore, this`graph
      ensures PhaseReady(objects)
      ensures generated == GeneratedAll(objects, mapper, created)
    {
      hide Represents, OwnersOf, Generated, Skipped;
      ownerToDependents, toRestore, graph := map[], [], map[];
      RepresentsNothing(numOwnerReferences);
      generated := objects;
      var remaining := objects.Keys;
      while remaining != {}
        invariant remaining <= objects.Keys == generated.Keys
        invariant forall i :: i in graph <==> i in objects && i !in remaining && !Skipped(i, objects[i])
        invariant forall i | i in graph :: graph[i] == OwnersOf(i, objects[i], mapper, created)
        invariant Represents(graph, numOwnerReferences, ownerToDependents, toRestore)
        invariant forall i | i in objects ::
                    generated[i] == if i in remaining then objects[i] else Generated(i, objects[i], mapper, created)
        decreases remaining
      {
        var info :| info in remaining;
        remaining := remaining - {info};
        if Skipped(info, objects[info]) {
          SkippedUnchanged(info, objects[info], mapper, created);
          continue;
        }
        var written := AddObject(info, objects[info]);
        generated := generated[info := written];
      }
    }

    /** restoreResource: rewrites the owner references in place, then creates or replaces the object. */
    method RestoreResource(info: ObjInfo, m: Manifest) returns (ok: bool)
      modifies this`cluster, this`written, this`gone
      ensures var e := Restored(old(cluster), mapper, FaultOf(faults, info), info, m);
              ok == e.ok && Balance() == Entered(old(Balance()), info, e)
    {
      hide ResolveRefs;
      if RegistrationSecret(info, m) {
        return true;
      }
      var obj := m;
      if m.ownerRefs.Some? {
        var refs := new OwnerRef[|m.ownerRefs.value|](k requires 0 <= k < |m.ownerRefs.value| => m.ownerRefs.value[k]);
        assert refs[..] == m.ownerRefs.value;
        var err := UpdateOwnerRefs(refs, cluster, mapper, info.namespace);
        if err == Some(OwnerNotFound) {
          obj := obj.(ownerRefs := None);
        } else if err.Some? {
          return false;
        } else {
          obj := obj.(ownerRefs := Some(refs[..]));
        }
      }
      var fault := FaultOf(faults, info);
      if fault == Some(CallFails) {
        return false;
      }
      if fault.Some? && fault.value.Refused? {
        return IsSettingsWebhookError(info.gvr, fault.value.message);
      }
      var res := Get(cluster, KeyOf(info));
      var call := if res.Err? then Create(cluster, KeyOf(info), obj)
                  else Update(cluster, KeyOf(info), obj, res.value.rv);
      cluster := call.value;
      if KeyOf(info) in cluster.objects {
        written := written[KeyOf(info) := obj];
      } else {
        written, gone := written - {KeyOf(info)}, gone + {KeyOf(info)};
      }
      return fault == None;
    }

    /** The state of the worklist loop. */
    function Work(): WorklistMeasure.Work
      reads this`toRestore, this`created, this`numOwnerReferences
    {
      WorklistMeasure.Work(toRestore, created, numOwnerReferences)
    }

    /** Tells every dependent of the object just restored; those with no owner left to wait for are queued. */
    method ReleaseDependents(path: string, ghost attempted: set<ObjInfo>, ghost done: set<string>)
      requires DistinctPaths(graph.Keys) && path !in done
      requires ListsDependents(graph, ownerToDependents)
      requires Agrees(graph, numOwnerReferences, toRestore, attempted, done, multiset{})
      modifies this`numOwnerReferences, this`toRestore
      ensures Agrees(graph, numOwnerReferences, toRestore, attempted, done + {path}, multiset{})
      ensures path !in ownerToDependents ==> toRestore == old(toRestore)
      ensures Work() == WorklistMeasure.Release(old(Work()), WorklistMeasure.DependentsOf(ownerToDependents, path))
    {
      hide Agrees, Pending, ListsDependents, Outstanding, WorklistMeasure.Release;
      var dependents := if path in ownerToDependents then ownerToDependents[path] else [];
      WorklistMeasure.ReleaseNothing(Work());
      for k := 0 to |dependents|
        invariant Agrees(graph, numOwnerReferences, toRestore, attempted, done, multiset(dependents[..k]))
        invariant k == 0 ==> toRestore == old(toRestore)
        invariant Work() == WorklistMeasure.Release(old(Work()), dependents[..k])
      {
        var dependent := dependents[k];
        WorklistMeasure.ReleaseSnoc(old(Work()), dependents, k);
        NextStillWaits(graph, ownerToDependents, path, dependents, k, done);
        AgreesAfterTelling(graph, numOwnerReferences, toRestore, attempted, done, multiset(dependents[..k]), dependent);
        var path := dependent.configPath;
        if numOwnerReferences[path] > 0 {
          numOwnerReferences := numOwnerReferences[path := numOwnerReferences[path] - 1];
        }
        if numOwnerReferences[path] == 0 {
          toRestore := toRestore + [dependent];
        }
      }
      assert dependents[..|dependents|] == dependents;
      AllTold(graph, ownerToDependents, path, dependents);
      AgreesWhenSettled(graph, numOwnerReferences, toRestore, attempted, done, multiset(dependents), path);
    }

    /** The maps of the loaded archive an object of the current phase is looked up in. */
    function ObjectsFor(info: ObjInfo): Manifests
      reads this`namespaced, this`clusterScoped
    {
      if info.namespace != "" then namespaced else clusterScoped
    }

    /** What holds whenever the loop looks at the queue. */
    ghost predicate Working(ph: Phase, keys: set<Key>, before: set<string>, b: Books)
      requires DistinctPaths(graph.Keys)
      reads this
    {
      && Agrees(graph, numOwnerReferences, toRestore, b.attempted, Elements(b.done), multiset{})
      && ListsDependents(graph, ownerToDependents)
      && Balanced(graph, b, before) && created == before + Elements(b.done)
      && Held(graph, ph, keys, before, Balance(), Elements(b.done), Elements(b.tried))
    }

    /** The objects of the phase, as the graph and the maps of the loaded archive show them. */
    ghost predicate PhaseObjects(ph: Phase)
      reads this`graph, this`namespaced, this`clusterScoped
    {
      && ph.mapper == mapper && ph.faults == faults
      && graph.Keys <= ph.objects.Keys && Distinct(ph.objects.Keys) && DistinctPaths(graph.Keys)
      && (forall i | i in ph.objects :: i in ObjectsFor(i) && ObjectsFor(i)[i] == ph.objects[i])
      && ph.start.gone !! KeysOf(ph.objects.Keys)
    }

    /** One turn of the loop, with the books before and after it. */
    method Turn(ghost ph: Phase, ghost keys: set<Key>, ghost before: set<string>, ghost b: Books)
      returns (failed: Option<string>, ghost b': Books)
      requires PhaseObjects(ph) && toRestore != [] && Working(ph, keys, before, b)
      modifies this`toRestore, this`numOwnerReferences, this`created, this`cluster, this`written, this`gone
      ensures Working(ph, keys, before, b')
      ensures b'.errors == if failed.Some? then b.errors + [failed.value] else b.errors
      ensures failed.Some? ==> Excused(ph.objects, failed.value)
      // fewer owners are left to finish, or as many and the queue is shorter
      ensures Work() == WorklistMeasure.Turn(ownerToDependents, old(Work()), failed == None)
      ensures var unfinished, unfinished' := ownerToDependents.Keys - old(created), ownerToDependents.Keys - created;
              unfinished' < unfinished || (unfinished' == unfinished && |toRestore| < |old(toRestore)|)
    {
      hide Agrees, Balanced, Represents, ListsDependents, Elements, ObjectsFor, Pending, Excused, Distinct, Paths,
           KeysOf, Held;
      AgreesAfterPop(graph, numOwnerReferences, toRestore, b.attempted, Elements(b.done), multiset{});
      var curr := toRestore[0];
      toRestore := toRestore[1..];
      failed := None;
      if curr.configPath in created {
        BalancedAfterSkip(graph, b, before, curr);
        b' := b.(attempted := b.attempted + {curr});
        return;
      }
      NotTriedYet(graph, b, before, curr);
      PendingZero(graph[curr], Elements(b.done));
      ElementsAppend(b.tried, curr.configPath);
      var ok := RestoreQueued(curr, ObjectsFor(curr)[curr], ph, keys, before, Elements(b.done), Elements(b.tried));
      if !ok {
        BalancedAfterFailure(graph, b, before, curr);
        b' := Books(b.done, b.tried + [curr.configPath], b.errors + [curr.configPath], b.attempted + {curr});
        return Some(curr.configPath), b';
      }
      BalancedAfterSuccess(graph, b, before, curr);
      ElementsAppend(b.done, curr.configPath);
      ReleaseDependents(curr.configPath, b.attempted + {curr}, Elements(b.done));
      b' := Books(b.done + [curr.configPath], b.tried + [curr.configPath], b.errors, b.attempted + {curr});
      ghost var unfinished := ownerToDependents.Keys - created;
      created := created + {curr.configPath};
      assert ownerToDependents.Keys - created == unfinished - {curr.configPath};
    }

    /** Works the queue off, owners first. `objects` are the phase's objects, as the two maps hold them; `keys`
        are objects whose owners the order is to protect. */
    method CreateFromDependencyGraph(ghost objects: Manifests, ghost keys: set<Key>)
      returns (errors: seq<string>, ghost done: seq<string>, ghost tried: seq<string>, ghost outcomes: seq<bool>)
      requires graph.Keys <= objects.Keys && Distinct(objects.Keys) && DistinctPaths(graph.Keys)
      requires forall i | i in objects :: i in ObjectsFor(i) && ObjectsFor(i)[i] == objects[i]
      requires Represents(graph, numOwnerReferences, ownerToDependents, toRestore)
      requires Intact(Balance(), mapper) && gone !! KeysOf(objects.Keys)
      modifies this`toRestore, this`numOwnerReferences, this`created, this`cluster, this`written, this`gone, this`log,
               this`attempts
      ensures toRestore == [] && Work() == WorklistMeasure.Run(ownerToDependents, old(Work()), outcomes)
      // the objects restored, in order, are exactly the restorable ones
      ensures log == old(log) + done && created == old(created) + Elements(done)
      ensures Elements(done) == Restorable(Problem(ByPath(graph), Paths(graph.Keys) - Elements(errors), old(created)))
      ensures InOrder(ByPath(graph), done) && Elements(done) !! old(created) && Elements(done) !! Elements(errors)
      // each is restored at most once
      ensures attempts == old(attempts) + tried
              && Elements(tried) == Elements(done) + Elements(errors) <= Paths(graph.Keys)
      ensures NoDuplicates(tried) && NoDuplicates(done)
      ensures forall p | p in errors :: Excused(objects, p)
      // the cluster, and the owners that objects waited for
      ensures Kept(Phase(old(Balance()), objects, mapper, faults), Balance(), Elements(done), Elements(tried))
      ensures Anchoring(graph, objects, old(Balance()), keys, mapper, old(created)) ==>
                Anchored(Balance(), keys, mapper, created)
    {
      hide Agrees, Balanced, Kept, Represents, ListsDependents, Elements, InOrder, NoDuplicates, Restorable, ObjectsFor,
           Excused, Distinct, Paths, Intact, ByPath, KeysOf, Anchored, Anchoring, Held;
      errors, outcomes := [], [];
      ghost var b := Books([], [], [], {});
      ghost var before, ph := created, Phase(Balance(), objects, mapper, faults);
      AgreesInitially(graph, numOwnerReferences, ownerToDependents, toRestore);
      BalancedInitially(graph, before);
      HeldInitially(graph, ph, keys, before);
      ElementsNothing();
      while toRestore != []
        invariant Working(ph, keys, before, b) && errors == b.errors
        invariant log == old(log) && attempts == old(attempts)
        invariant Work() == WorklistMeasure.Run(ownerToDependents, old(Work()), outcomes)
        invariant forall p | p in errors :: Excused(objects, p)
        decreases ownerToDependents.Keys - created, |toRestore|
      {
        var failed;
        failed, b := Turn(ph, keys, before, b);
        WorklistMeasure.RunSnoc(ownerToDependents, old(Work()), outcomes, failed == None);
        outcomes := outcomes + [failed == None];
        if failed.Some? {
          errors := errors + [failed.value];
        }
      }
      ExhaustedIsRestorable(graph, numOwnerReferences, b, before);
      BalancedGives(graph, b, before);
      HeldGives(graph, ph, keys, before, Balance(), Elements(b.done), Elements(b.tried));
      done, tried := b.done, b.tried;
      log, attempts := log + done, attempts + tried;
    }

    ghost predicate Excused(objects: Manifests, path: string) {
      FailedFor(objects, mapper, faults, path)
    }

    /** Restores one object of a phase. */
    method RestoreOne(curr: ObjInfo, m: Manifest, ghost ph: Phase, ghost done: set<string>, ghost tried: set<string>)
      returns (ok: bool)
      requires ph.mapper == mapper && ph.faults == faults
      requires curr in ph.objects && curr.configPath !in tried && done <= tried && Distinct(ph.objects.Keys)
      requires m == ph.objects[curr] && ph.start.gone !! KeysOf(ph.objects.Keys)
      requires Kept(ph, Balance(), done, tried)
      modifies this`cluster, this`written, this`gone
      ensures var e := Restored(old(cluster), mapper, FaultOf(faults, curr), curr, m);
              ok == e.ok && Balance() == Entered(old(Balance()), curr, e)
      ensures Kept(ph, Balance(), if ok then done + {curr.configPath} else done, tried + {curr.configPath})
      ensures !ok ==> Excused(ph.objects, curr.configPath)
    {
      hide Restored, Kept, KeysOf, Distinct, Entered;
      KeptAfter(ph, Balance(), done, tried, curr);
      RestoredOutcome(cluster, mapper, FaultOf(faults, curr), curr, m);
      ok := RestoreResource(curr, m);
    }

    /** ... and one whose owners are all done. */
    method RestoreQueued(curr: ObjInfo, m: Manifest, ghost ph: Phase, ghost keys: set<Key>, ghost before: set<string>,
                         ghost done: set<string>, ghost tried: set<string>)
      returns (ok: bool)
      requires ph.mapper == mapper && ph.faults == faults
      requires curr in ph.objects && curr.configPath !in tried && done <= tried && Distinct(ph.objects.Keys)
      requires m == ph.objects[curr] && ph.start.gone !! KeysOf(ph.objects.Keys)
      requires curr in graph && curr.configPath !in before && forall o | o in graph[curr] :: o in done
      requires Held(graph, ph, keys, before, Balance(), done, tried)
      modifies this`cluster, this`written, this`gone
      ensures Held(graph, ph, keys, before, Balance(), if ok then done + {curr.configPath} else done,
                   tried + {curr.configPath})
      ensures !ok ==> Excused(ph.objects, curr.configPath)
    {
      hide Restored, Kept, KeysOf, Distinct, Entered, Held, Excused;
      HeldGives(graph, ph, keys, before, Balance(), done, tried);
      HeldAfter(graph, ph, keys, before, Balance(), done, tried, curr);
      ok := RestoreOne(curr, m, ph, done, tried);
    }

    ghost predicate Loaded()
      reads this
    {
      WellLoaded(crds.Keys, clusterScoped.Keys, namespaced.Keys)
    }

    /** Merges one CRD with its live counterpart and restores it. */
    method RestoreCrd(info: ObjInfo, ghost start: Account, ghost loaded: Manifests, ghost done: set<string>)
      returns (ok: bool)
      requires info in crds && info.configPath !in done && crds.Keys == loaded.Keys && Distinct(loaded.Keys)
      requires start.gone !! KeysOf(crds.Keys)
      requires Kept(Phase(start, crds, mapper, faults), Balance(), done, done)
      requires CrdsMerged(loaded, crds, merge, start.cluster, done) && crds[info] == loaded[info]
      modifies this`crds, this`cluster, this`written, this`gone
      ensures crds.Keys == old(crds).Keys && forall i | i in crds && i != info :: crds[i] == old(crds)[i]
      ensures CrdsMerged(loaded, crds, merge, start.cluster, if ok then done + {info.configPath} else done)
      ensures Kept(Phase(start, crds, mapper, faults), Balance(), if ok then done + {info.configPath} else done,
                   done + {info.configPath})
      ensures !ok ==> Excused(crds, info.configPath)
    {
      hide Kept, Excused, Restored, CrdsMerged, OnlyTouches, FaultOf, KeysOf, Distinct, KeysTried, Entered;
      ghost var ph := Phase(start, crds, mapper, faults);
      NotTouchedYet(crds, done, info);
      KeptTouches(ph, Balance(), done, done);
      CrdsMergedAfter(loaded, crds, merge, start.cluster, done, cluster, info, KeysTried(crds, done));
      KeptForPending(ph, Balance(), done, done, info, MergedCrd(merge, cluster, info, crds[info]));
      var crd, live := crds[info], Get(cluster, KeyOf(info));
      if live.Ok? {
        crd := crd.(payload := merge(crd.payload, live.value.manifest.payload));
      }
      crds := crds[info := crd];
      assert crds.Keys == loaded.Keys;
      ok := RestoreOne(info, crd, ph.(objects := crds), done, done);
    }

    /** CRDs carry no order among themselves; the first failure ends the phase. */
    method RestoreCRDs() returns (err: Option<string>, ghost done: seq<string>)
      requires Distinct(crds.Keys) && Intact(Balance(), mapper) && gone !! KeysOf(crds.Keys)
      modifies this`crds, this`created, this`cluster, this`written, this`gone, this`log, this`attempts
      ensures CrdsMerged(old(crds), crds, merge, old(cluster), Elements(done))
      ensures log == old(log) + done && created == old(created) + Elements(done)
      ensures NoDuplicates(done) && Elements(done) <= Paths(crds.Keys)
      ensures err == None ==> Elements(done) == Paths(crds.Keys)
      ensures err.Some? ==> err.value in Paths(crds.Keys) - Elements(done) && Excused(crds, err.value)
      ensures attempts == old(attempts) + done + Failure(err)
      ensures Kept(Phase(old(Balance()), crds, mapper, faults), Balance(), Elements(done),
                   Elements(done) + Elements(Failure(err)))
    {
      hide Kept, NoDuplicates, Excused, Intact, Restored, CrdsMerged, Elements, Paths, KeysOf, Distinct, RecordedAt,
           Carried;
      err, done := None, [];
      ghost var before, start, loaded := created, Balance(), crds;
      var remaining := crds.Keys;
      KeptInitially(Phase(start, crds, mapper, faults));
      CrdsMergedInitially(crds, merge, cluster);
      NoDuplicatesNothing<string>();
      ElementsNothing();
      NoPaths();
      DistinctGives(loaded.Keys);
      assert loaded.Keys - remaining == {};
      while remaining != {}
        invariant remaining <= crds.Keys == loaded.Keys
        invariant created == before + Elements(done) && log == old(log) && attempts == old(attempts)
        invariant Elements(done) == Paths(loaded.Keys - remaining) && NoDuplicates(done)
        invariant Kept(Phase(start, crds, mapper, faults), Balance(), Elements(done), Elements(done))
        invariant CrdsMerged(loaded, crds, merge, start.cluster, Elements(done))
                  && forall i | i in remaining :: crds[i] == loaded[i]
        decreases remaining
      {
        var info :| info in remaining;
        PathsSoFar(loaded.Keys, remaining, info);
        MembersAreElements(done);
        var ok := RestoreCrd(info, start, loaded, Elements(done));
        if !ok {
          err := Some(info.configPath);
          ElementsOne(err);
          log, attempts := log + done, attempts + done + [info.configPath];
          return;
        }
        ElementsAppend(done, info.configPath);
        NoDuplicatesAppend(done, info.configPath);
        remaining := remaining - {info};
        done := done + [info.configPath];
        created := created + {info.configPath};
      }
      assert loaded.Keys - remaining == crds.Keys;
      ElementsOne(err);
      assert Elements(done) + {} == Elements(done);
      log, attempts := log + done, attempts + done;
    }

    /** One dependency-ordered phase over the cluster-scoped objects. */
    method RestoreClusterScopedResources(ghost keys: set<Key>)
      returns (errors: seq<string>, ghost done: seq<string>, ghost tried: seq<string>)
      requires Loaded() && Intact(Balance(), mapper) && gone !! KeysOf(clusterScoped.Keys)
      modifies this`clusterScoped, this`graph, this`ownerToDependents, this`toRestore, this`numOwnerReferences,
               this`created, this`cluster, this`written, this`gone, this`log, this`attempts
      ensures clusterScoped == GeneratedAll(old(clusterScoped), mapper, old(created))
      ensures PhaseRan(old(clusterScoped), clusterScoped, old(Balance()), old(created), old(log), old(attempts), keys,
                       errors, done, tried)
    {
      hide Represents, GeneratedAll, Kept, Intact, Graph, FailedFor, InOrder, Restorable, NoDuplicates, Elements,
           Distinct, KeysOf, Anchored, Anchoring, FiledByKey, PhaseExact, ByPath, Paths, WellLoaded;
      ghost var loaded, start, before := clusterScoped, Balance(), created;
      WellLoadedGives(crds.Keys, clusterScoped.Keys, namespaced.Keys);
      GraphKeys(loaded, mapper, created);
      var generated := GenerateDependencyGraph(clusterScoped);
      clusterScoped := generated;
      AnchoringHolds(loaded, start, keys, mapper, before);
      ghost var outcomes;
      errors, done, tried, outcomes := CreateFromDependencyGraph(generated, keys);
      PhaseIsExact(loaded, mapper, before, errors, done);
      KeptGives(Phase(start, generated, mapper, faults), Balance(), Elements(done), Elements(tried));
      RecordedSucceed(Balance(), start.cluster, loaded, mapper, before, faults, Elements(done));
    }

    /** ... and over the namespaced ones. */
    method RestoreNamespacedResources(ghost keys: set<Key>)
      returns (errors: seq<string>, ghost done: seq<string>, ghost tried: seq<string>)
      requires Loaded() && Intact(Balance(), mapper) && gone !! KeysOf(namespaced.Keys)
      modifies this`namespaced, this`graph, this`ownerToDependents, this`toRestore, this`numOwnerReferences,
               this`created, this`cluster, this`written, this`gone, this`log, this`attempts
      ensures namespaced == GeneratedAll(old(namespaced), mapper, old(created))
      ensures PhaseRan(old(namespaced), namespaced, old(Balance()), old(created), old(log), old(attempts), keys, errors,
                       done, tried)
    {
      hide Represents, GeneratedAll, Kept, Intact, Graph, FailedFor, InOrder, Restorable, NoDuplicates, Elements,
           Distinct, KeysOf, Anchored, Anchoring, FiledByKey, PhaseExact, ByPath, Paths, WellLoaded;
      ghost var loaded, start, before := namespaced, Balance(), created;
      WellLoadedGives(crds.Keys, clusterScoped.Keys, namespaced.Keys);
      GraphKeys(loaded, mapper, created);
      var generated := GenerateDependencyGraph(namespaced);
      namespaced := generated;
      AnchoringHolds(loaded, start, keys, mapper, before);
      ghost var outcomes;
      errors, done, tried, outcomes := CreateFromDependencyGraph(generated, keys);
      PhaseIsExact(loaded, mapper, before, errors, done);
      KeptGives(Phase(start, generated, mapper, faults), Balance(), Elements(done), Elements(tried));
      RecordedSucceed(Balance(), start.cluster, loaded, mapper, before, faults, Elements(done));
    }

    /** What a phase over `loaded` (rewritten to `generated`) has done: exactly the restorable objects, each
        once and after its owners, losing only what was doomed and no owner that was waited for. */
    ghost predicate PhaseRan(loaded: Manifests, generated: Manifests, start: Account, before: set<string>,
                             log0: seq<string>,
                             attempts0: seq<string>, keys: set<Key>, errors: seq<string>, done: seq<string>,
                             tried: seq<string>)
      reads this
    {
      && PhaseOutcome(loaded, mapper, faults, before, errors, done)
      && log == log0 + done && created == before + Elements(done)
      && attempts == attempts0 + tried && NoDuplicates(tried)
      && Elements(tried) == Elements(done) + Elements(errors) <= Paths(loaded.Keys)
      && (forall p | p in errors :: Excused(generated, p))
      && Kept(Phase(start, generated, mapper, faults), Balance(), Elements(done), Elements(tried))
      && (FiledByKey(loaded.Keys) && Anchored(start, keys, mapper, before) ==>
        Anchored(Balance(), keys, mapper, created))
    }

    /** The second phase, seen from the start of the run: what holds after the CRDs holds of both. */
    method ClusterScopedStep(ghost a0: Account, ghost crdPart: seq<string>, ghost parts: Archive)
      returns (errors: seq<string>, ghost part: seq<string>)
      requires Loaded() && a0.written == map[] && a0.gone == {}
      requires log == crdPart && created == Elements(crdPart)
      requires NoDuplicates(attempts) && Elements(attempts) <= Paths(crds.Keys)
      requires parts.crds.objects == crds && parts.clusterScoped == Part(clusterScoped, {}, {})
               && parts.namespaced.done == {}
      requires Settled(a0, Balance(), parts, mapper, faults, KeysOf(crds.Keys))
      requires gone <= KeysOf(crds.Keys) && written.Keys <= KeysOf(crds.Keys)
      modifies this`clusterScoped, this`graph, this`ownerToDependents, this`toRestore, this`numOwnerReferences,
               this`created, this`cluster, this`written, this`gone, this`log, this`attempts
      ensures clusterScoped == GeneratedAll(old(clusterScoped), mapper, Elements(crdPart))
      ensures PhaseOutcome(old(clusterScoped), mapper, faults, Elements(crdPart), errors, part)
      ensures forall p | p in errors :: Excused(clusterScoped, p)
      ensures log == crdPart + part && created == Elements(log)
      ensures OwnersFirst(old(clusterScoped), mapper, log, |crdPart|)
      ensures NoDuplicates(attempts) && Elements(attempts) <= Paths(crds.Keys) + Paths(clusterScoped.Keys)
      ensures Settled(a0, Balance(), parts.(clusterScoped := PartOf(clusterScoped, part, errors)), mapper, faults,
                      KeysOf(crds.Keys) + KeysOf(clusterScoped.Keys))
      ensures gone <= KeysOf(crds.Keys) + KeysOf(clusterScoped.Keys)
      ensures FiledByKey(clusterScoped.Keys) ==>
                Anchored(Balance(), KeysOf(clusterScoped.Keys) + KeysOf(namespaced.Keys), mapper, created)
    {
      hide WellLoaded, Distinct, GeneratedAll, PhaseExact, OwnersFirst, Kept, Intact, Settled, NoDuplicates, InOrder,
           Excused, Elements, Paths, Waits, KeysOf, Anchored, FiledByKey;
      ghost var loaded := clusterScoped;
      ghost var a1, tried1, tried := Balance(), attempts, [];
      WellLoadedGives(crds.Keys, clusterScoped.Keys, namespaced.Keys);
      KeysApart(crds.Keys, loaded.Keys, namespaced.Keys);
      AnchoredVacuously(a1, KeysOf(loaded.Keys) + KeysOf(namespaced.Keys), mapper, created);
      SettledIsIntact(a0, a1, parts, mapper, faults, KeysOf(crds.Keys));
      errors, part, tried := RestoreClusterScopedResources(KeysOf(loaded.Keys) + KeysOf(namespaced.Keys));
      assert clusterScoped.Keys == loaded.Keys;
      AfterClusterScoped(a0, a1, Balance(), parts, parts.(clusterScoped := PartOf(clusterScoped, part, errors)), mapper,
                         faults);
      PhaseExactGives(loaded, mapper, Elements(crdPart), errors, part);
      PhaseOwnersFirst(loaded, mapper, crdPart, part);
      ElementsConcat(crdPart, part);
      ElementsConcat(tried1, tried);
      TriedOnce(tried1, tried, crds.Keys, loaded.Keys);
    }

    /** ... and the third, of all three. */
    method NamespacedStep(ghost a0: Account, ghost crdPart: seq<string>, ghost clusterPart: seq<string>,
                          ghost loadedC: Manifests, ghost parts: Archive)
      returns (errors: seq<string>, ghost part: seq<string>)
      requires Loaded() && a0.written == map[] && a0.gone == {} && loadedC.Keys == clusterScoped.Keys
      requires log == crdPart + clusterPart && created == Elements(log) && OwnersFirst(loadedC, mapper, log, |crdPart|)
      requires NoDuplicates(attempts) && Elements(attempts) <= Paths(crds.Keys) + Paths(clusterScoped.Keys)
      requires parts.crds.objects == crds && parts.clusterScoped.objects == clusterScoped
      requires parts.namespaced == Part(namespaced, {}, {})
      requires Settled(a0, Balance(), parts, mapper, faults, KeysOf(crds.Keys) + KeysOf(clusterScoped.Keys))
      requires gone <= KeysOf(crds.Keys) + KeysOf(clusterScoped.Keys)
      modifies this`namespaced, this`graph, this`ownerToDependents, this`toRestore, this`numOwnerReferences,
               this`created, this`cluster, this`written, this`gone, this`log, this`attempts
      ensures namespaced == GeneratedAll(old(namespaced), mapper, Elements(crdPart + clusterPart))
      ensures PhaseOutcome(old(namespaced), mapper, faults, Elements(crdPart + clusterPart), errors, part)
      ensures forall p | p in errors :: Excused(namespaced, p)
      ensures log == crdPart + clusterPart + part && created == Elements(log)
      ensures OwnersFirst(loadedC, mapper, log, |crdPart|)
      ensures OwnersFirst(old(namespaced), mapper, log, |crdPart + clusterPart|)
      ensures NoDuplicates(attempts)
      ensures var end := parts.(namespaced := PartOf(namespaced, part, errors));
              Settled(a0, Balance(), end, mapper, faults, AllKeys(end))
      ensures var keys := KeysOf(clusterScoped.Keys) + KeysOf(namespaced.Keys);
              FiledByKey(namespaced.Keys) && Anchored(old(Balance()), keys, mapper, old(created)) ==>
                Anchored(Balance(), keys, mapper, created)
    {
      hide WellLoaded, Distinct, GeneratedAll, PhaseExact, OwnersFirst, Kept, Intact, Settled, NoDuplicates, InOrder,
           Excused, Elements, Paths, Waits, KeysOf, Anchored, FiledByKey, AllKeys;
      ghost var loaded := namespaced;
      ghost var a2, tried1, tried := Balance(), attempts, [];
      WellLoadedGives(crds.Keys, clusterScoped.Keys, namespaced.Keys);
      KeysApart(crds.Keys, clusterScoped.Keys, loaded.Keys);
      SettledIsIntact(a0, a2, parts, mapper, faults, KeysOf(crds.Keys) + KeysOf(clusterScoped.Keys));
      errors, part, tried := RestoreNamespacedResources(KeysOf(clusterScoped.Keys) + KeysOf(loaded.Keys));
      assert namespaced.Keys == loaded.Keys;
      AfterNamespaced(a0, a2, Balance(), parts, parts.(namespaced := PartOf(namespaced, part, errors)), mapper, faults);
      PhaseExactGives(loaded, mapper, Elements(crdPart + clusterPart), errors, part);
      PhaseOwnersFirst(loaded, mapper, crdPart + clusterPart, part);
      OwnersFirstStays(loadedC, mapper, crdPart + clusterPart, part, |crdPart|, loaded.Keys);
      ElementsConcat(crdPart + clusterPart, part);
      PathsUnion(crds.Keys, clusterScoped.Keys);
      TriedOnce(tried1, tried, crds.Keys + clusterScoped.Keys, loaded.Keys);
    }

    /** How far a run has got, by its report. */
    ghost function PartsOf(report: Report, crdPart: seq<string>, clusterPart: seq<string>, namespacedPart: seq<string>)
      : Archive
      reads this
    {
      Archive(PartOf(crds, crdPart, Failure(report.crdError)),
              PartOf(clusterScoped, clusterPart, report.clusterErrors),
              PartOf(namespaced, namespacedPart, report.namespacedErrors))
    }

    /** CRDs, then cluster-scoped, then namespaced objects, on any cluster. Unless errors are ignored, a phase
        that failed is the last. */
    method RestoreAll(ignoreErrors: bool)
      returns (report: Report, ghost crdPart: seq<string>, ghost clusterPart: seq<string>,
               ghost namespacedPart: seq<string>)
      requires Loaded()
      requires created == {} && log == [] && attempts == [] && written == map[] && gone == {}
      modifies this
      ensures report.phases == if !ignoreErrors && report.crdError.Some? then 1
                               else if !ignoreErrors && report.clusterErrors != [] then 2 else 3
      // nothing is tried twice, and the phases run in order
      ensures NoDuplicates(attempts)
      ensures log == crdPart + clusterPart + namespacedPart && created == Elements(log)
      ensures CrdsMerged(old(crds), crds, merge, old(cluster), Elements(crdPart))
              && Elements(crdPart) <= Paths(crds.Keys)
      ensures report.crdError == None ==> Elements(crdPart) == Paths(crds.Keys)
      // each phase restored exactly what could be restored
      ensures report.phases >= 2 ==>
                PhaseOutcome(old(clusterScoped), mapper, faults, Elements(crdPart), report.clusterErrors, clusterPart)
      ensures report.phases == 3 ==>
                PhaseOutcome(old(namespaced), mapper, faults, Elements(crdPart + clusterPart), report.namespacedErrors,
                             namespacedPart)
      ensures report.phases < 3 ==> namespacedPart == [] && report.namespacedErrors == []
      ensures report.phases < 2 ==> clusterPart == [] && report.clusterErrors == []
      // and nothing fails without a reason
      ensures report.crdError.Some? ==> Excused(crds, report.crdError.value)
      ensures forall p | p in report.clusterErrors :: Excused(clusterScoped, p)
      ensures forall p | p in report.namespacedErrors :: Excused(namespaced, p)
      // owners first, across all phases
      ensures OwnersFirst(old(clusterScoped), mapper, log, |crdPart|)
      ensures OwnersFirst(old(namespaced), mapper, log, |crdPart + clusterPart|)
      // the cluster: what is restored is on record, and nothing else is touched
      ensures var parts := PartsOf(report, crdPart, clusterPart, namespacedPart);
              Settled(old(Balance()), Balance(), parts, mapper, faults, AllKeys(parts))
      ensures clusterScoped.Keys == old(clusterScoped).Keys && namespaced.Keys == old(namespaced).Keys
      ensures report.phases >= 2 ==> clusterScoped == GeneratedAll(old(clusterScoped), mapper, Elements(crdPart))
      ensures report.phases == 3 ==>
                namespaced == GeneratedAll(old(namespaced), mapper, Elements(crdPart + clusterPart))
      // an owner that was waited for is never lost
      ensures FiledByKey(old(clusterScoped).Keys) && FiledByKey(old(namespaced).Keys) ==>
                Anchored(Balance(), KeysOf(old(clusterScoped).Keys) + KeysOf(old(namespaced).Keys), mapper, created)
    {
      hide WellLoaded, Distinct, GeneratedAll, Restorable, DistinctPaths, PhaseExact, OwnersFirst, Kept, Intact,
           Settled, NoDuplicates, InOrder, Excused, Elements, Paths, Generated, Waits, KeysOf, CrdsMerged, Anchored,
           FiledByKey;
      ghost var a0, loadedC, loadedN := Balance(), clusterScoped, namespaced;
      ghost var keys := KeysOf(loadedC.Keys) + KeysOf(loadedN.Keys);
      WellLoadedGives(crds.Keys, clusterScoped.Keys, namespaced.Keys);
      KeysApart(crds.Keys, loadedC.Keys, loadedN.Keys);
      IntactInitially(cluster, mapper);
      var crdError;
      crdError, crdPart := RestoreCRDs();
      clusterPart, namespacedPart := [], [];
      report := Report(1, crdError, [], []);
      CrdsMergedKeys(old(crds), crds, merge, a0.cluster, Elements(crdPart));
      ElementsNothing();
      ghost var parts := PartsOf(report, crdPart, [], []);
      AfterCrds(a0, Balance(), parts, mapper, faults);
      assert log == crdPart && created == Elements(crdPart);
      TriedCrds(crds.Keys, crdPart, crdError, attempts);
      OwnersFirstNothing(loadedN, mapper, log);
      if crdError.Some? && !ignoreErrors {
        SettledMore(a0, Balance(), parts, mapper, faults);
        AnchoredVacuously(Balance(), keys, mapper, created);
        OwnersFirstNothing(loadedC, mapper, log);
        return;
      }
      var clusterErrors;
      clusterErrors, clusterPart := ClusterScopedStep(a0, crdPart, parts);
      report := Report(2, crdError, clusterErrors, []);
      assert clusterScoped.Keys == loadedC.Keys;
      parts := PartsOf(report, crdPart, clusterPart, []);
      OwnersFirstNothing(loadedN, mapper, log);
      if clusterErrors != [] && !ignoreErrors {
        SettledMore(a0, Balance(), parts, mapper, faults);
        return;
      }
      var namespacedErrors;
      namespacedErrors, namespacedPart := NamespacedStep(a0, crdPart, clusterPart, loadedC, parts);
      report := Report(3, crdError, clusterErrors, namespacedErrors);
      assert namespaced.Keys == loadedN.Keys;
    }
  }
}
