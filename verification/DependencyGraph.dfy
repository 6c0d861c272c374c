/** The owner graph of one restore phase and the arithmetic of its pending-owner counters. */
module DependencyGraph {
  import opened Results
  import opened GoStrings
  import opened Kube
  import opened ArchivePath
  import opened OwnerRefs

  type Manifests = map<ObjInfo, Manifest>

  /** Rancher's own deployments are left to the running operator. */
  predicate Skipped(info: ObjInfo, m: Manifest) {
    && m.kind == "Deployment" && info.namespace == "cattle-system"
    && (HasSuffix(info.name, "rancher") || HasSuffix(info.name, "rancher-webhook"))
  }

  function OwnersOf(info: ObjInfo, m: Manifest, mapper: RestMapper, created: set<string>): seq<string> {
    CountedOwners(RefsOf(m), mapper, info.namespace, created)
  }

  /** The objects of a phase, each with the owner paths it waits for. */
  function Graph(objects: Manifests, mapper: RestMapper, created: set<string>): map<ObjInfo, seq<string>> {
    map i | i in objects && !Skipped(i, objects[i]) :: OwnersOf(i, objects[i], mapper, created)
  }

  /** An object none of whose references counts loses all of them if one was rejected. */
  function Generated(info: ObjInfo, m: Manifest, mapper: RestMapper, created: set<string>): Manifest {
    if !Skipped(info, m) && OwnersOf(info, m, mapper, created) == [] && HasRejected(RefsOf(m), mapper, info.namespace)
    then m.(ownerRefs := None)
    else m
  }

  function GeneratedAll(objects: Manifests, mapper: RestMapper, created: set<string>): (generated: Manifests)
    ensures generated.Keys == objects.Keys
  {
    map i | i in objects :: Generated(i, objects[i], mapper, created)
  }

  lemma SkippedUnchanged(info: ObjInfo, m: Manifest, mapper: RestMapper, created: set<string>)
    requires Skipped(info, m)
    ensures Generated(info, m, mapper, created) == m
  {
  }

  lemma NoReferences(info: ObjInfo, m: Manifest, mapper: RestMapper, created: set<string>)
    requires m.ownerRefs.None?
    ensures OwnersOf(info, m, mapper, created) == [] && Generated(info, m, mapper, created) == m
  {
  }

  /** An object loses its references exactly if one of them was rejected and none makes it wait; so it keeps them if
      all its owners are there already. */
  lemma DroppedIff(info: ObjInfo, m: Manifest, mapper: RestMapper, created: set<string>)
    requires m.ownerRefs.Some? && !Skipped(info, m)
    ensures Generated(info, m, mapper, created) ==
            if (exists ref | ref in RefsOf(m) :: Rejected(ref, mapper, info.namespace))
               && (forall ref, k | ref in RefsOf(m) :: !Awaits(ref, mapper, info.namespace, created, k))
            then m.(ownerRefs := None) else m
  {
    hide Eligible, Awaits, Rejected, Skipped, OwnerPath;
    var refs, ns := RefsOf(m), info.namespace;
    HasRejectedIff(refs, mapper, ns);
    var owners := OwnersOf(info, m, mapper, created);
    if owners != [] {
      assert owners[0] in owners;
      WaitsForIff(refs, mapper, ns, created, owners[0]);
    }
    if ref, k :| ref in refs && Awaits(ref, mapper, ns, created, k) {
      WaitsForIff(refs, mapper, ns, created, OwnerPath(k));
    }
  }

  lemma HasRejectedIff(refs: seq<OwnerRef>, mapper: RestMapper, ns: string)
    ensures HasRejected(refs, mapper, ns) <==> exists ref | ref in refs :: Rejected(ref, mapper, ns)
  {
    hide Eligible, Rejected;
    forall ref | ref in refs ensures Eligible(ref, mapper, ns).None? <==> Rejected(ref, mapper, ns) {
      RejectedIff(ref, mapper, ns);
    }
    if HasRejected(refs, mapper, ns) {
      var i :| 0 <= i < |refs| && Eligible(refs[i], mapper, ns).None?;
      assert refs[i] in refs;
    }
  }

  ghost predicate DistinctPaths(infos: set<ObjInfo>) {
    forall i, j | i in infos && j in infos && i.configPath == j.configPath :: i == j
  }

  function Paths(infos: set<ObjInfo>): set<string> {
    set i | i in infos :: i.configPath
  }

  /** The graph keyed by path, the form in which the program keeps `created`. */
  ghost function ByPath(graph: map<ObjInfo, seq<string>>): (owners: map<string, seq<string>>)
    requires DistinctPaths(graph.Keys)
    ensures owners.Keys == Paths(graph.Keys)
    ensures forall i | i in graph :: i.configPath in owners && owners[i.configPath] == graph[i]
  {
    map i | i in graph :: i.configPath := graph[i]
  }

  lemma GraphKeys(objects: Manifests, mapper: RestMapper, created: set<string>)
    requires DistinctPaths(objects.Keys)
    ensures Graph(objects, mapper, created).Keys <= objects.Keys
    ensures DistinctPaths(Graph(objects, mapper, created).Keys)
  {
  }

  /** The owner paths each object of a phase waits for, by the object's path. */
  ghost function Waits(objects: Manifests, mapper: RestMapper, created: set<string>): (owners: map<string, seq<string>>)
    requires DistinctPaths(objects.Keys)
  {
    GraphKeys(objects, mapper, created);
    ByPath(Graph(objects, mapper, created))
  }

  lemma WaitsAt(objects: Manifests, mapper: RestMapper, created: set<string>, i: ObjInfo)
    requires DistinctPaths(objects.Keys)
    requires i in objects && i.configPath in Waits(objects, mapper, created)
    ensures Waits(objects, mapper, created)[i.configPath] == OwnersOf(i, objects[i], mapper, created)
  {
    hide OwnersOf, Skipped;
    GraphKeys(objects, mapper, created);
    var j :| j in Graph(objects, mapper, created) && j.configPath == i.configPath;
  }

  /** Everything waits its turn but Rancher's own deployments. */
  lemma WaitsUnlessRancher(objects: Manifests, mapper: RestMapper, created: set<string>, i: ObjInfo)
    requires DistinctPaths(objects.Keys) && i in objects
    ensures i.configPath in Waits(objects, mapper, created) <==>
            !(&& objects[i].kind == "Deployment" && i.namespace == "cattle-system"
              && exists prefix :: i.name == prefix + "rancher" || i.name == prefix + "rancher-webhook")
  {
    hide OwnersOf, HasSuffix;
    HasSuffixIff(i.name, "rancher");
    HasSuffixIff(i.name, "rancher-webhook");
    if i.configPath in Waits(objects, mapper, created) {
      GraphKeys(objects, mapper, created);
      var j :| j in Graph(objects, mapper, created) && j.configPath == i.configPath;
    }
  }

  /** What an object waits for, by its references. */
  lemma WaitsIff(objects: Manifests, mapper: RestMapper, created: set<string>, i: ObjInfo, o: string)
    requires DistinctPaths(objects.Keys) && i in objects && i.configPath in Waits(objects, mapper, created)
    ensures o in Waits(objects, mapper, created)[i.configPath] <==>
            exists ref, k | ref in RefsOf(objects[i]) ::
              Awaits(ref, mapper, i.namespace, created, k) && o == OwnerPath(k)
  {
    hide Waits, CountedOwners, Awaits, OwnerPath;
    WaitsAt(objects, mapper, created, i);
    WaitsForIff(RefsOf(objects[i]), mapper, i.namespace, created, o);
  }

  /** The path an object waits for is the one its owner was written under. */
  lemma WaitsForWritten(objects: Manifests, mapper: RestMapper, created: set<string>, i: ObjInfo, ref: OwnerRef,
                        owner: ObjInfo)
    requires DistinctPaths(objects.Keys) && i in objects && i.configPath in Waits(objects, mapper, created)
    requires ref in RefsOf(objects[i]) && Awaits(ref, mapper, i.namespace, created, KeyOf(owner))
    requires owner.configPath == WriterPath(KeyOf(owner)) && '/' !in owner.name
    ensures owner.configPath in Waits(objects, mapper, created)[i.configPath]
  {
    hide Waits, Awaits, OwnerPath, WriterPath;
    PathsAgree(KeyOf(owner));
    WaitsIff(objects, mapper, created, i, owner.configPath);
  }

  ghost predicate Distinct(infos: set<ObjInfo>) {
    forall i, j | i in infos && j in infos && (i.configPath == j.configPath || KeyOf(i) == KeyOf(j)) :: i == j
  }

  /** The loaded archive: paths and keys identify objects, and the maps are split by namespace. */
  ghost predicate WellLoaded(crds: set<ObjInfo>, clusterScoped: set<ObjInfo>, namespaced: set<ObjInfo>) {
    && Distinct(crds + clusterScoped + namespaced)
    && crds !! clusterScoped && crds !! namespaced
    && (forall i | i in clusterScoped :: i.namespace == "")
    && (forall i | i in namespaced :: i.namespace != "")
  }

  lemma WellLoadedGives(A: set<ObjInfo>, B: set<ObjInfo>, C: set<ObjInfo>)
    requires WellLoaded(A, B, C)
    ensures A !! B && A !! C && B !! C
    ensures Distinct(A + B) && Distinct(A + C) && Distinct(B + C) && Distinct(A + B + C)
    ensures Distinct(A) && Distinct(B) && Distinct(C)
    ensures (forall i | i in B :: i.namespace == "") && (forall i | i in C :: i.namespace != "")
  {
  }

  /** How often `i` is listed among the dependents of `o`. */
  function Edges(dependents: map<string, seq<ObjInfo>>, o: string, i: ObjInfo): nat {
    if o in dependents then multiset(dependents[o])[i] else 0
  }

  function AppendTo(dependents: map<string, seq<ObjInfo>>, o: string, info: ObjInfo): map<string, seq<ObjInfo>> {
    dependents[o := (if o in dependents then dependents[o] else []) + [info]]
  }

  /** `info` listed once more under each entry of `owners`. */
  function AppendToAll(dependents: map<string, seq<ObjInfo>>, owners: seq<string>, info: ObjInfo)
    : map<string, seq<ObjInfo>> {
    if owners == [] then dependents
    else
      var n := |owners| - 1;
      AppendTo(AppendToAll(dependents, owners[..n], info), owners[n], info)
  }

  lemma AppendToNone(dependents: map<string, seq<ObjInfo>>, info: ObjInfo)
    ensures AppendToAll(dependents, [], info) == dependents
  {
  }

  lemma AppendToAllSnoc(dependents: map<string, seq<ObjInfo>>, owners: seq<string>, o: string, info: ObjInfo)
    ensures AppendToAll(dependents, owners + [o], info) == AppendTo(AppendToAll(dependents, owners, info), o, info)
  {
    assert (owners + [o])[..|owners|] == owners;
  }

  lemma AppendToEdges(dependents: map<string, seq<ObjInfo>>, path: string, info: ObjInfo, o: string, i: ObjInfo)
    ensures Edges(AppendTo(dependents, path, info), o, i) ==
            Edges(dependents, o, i) + if o == path && i == info then 1 else 0
  {
  }

  lemma {:induction false} AppendToAllEdges(dependents: map<string, seq<ObjInfo>>, owners: seq<string>, info: ObjInfo,
                                            o: string, i: ObjInfo)
    ensures Edges(AppendToAll(dependents, owners, info), o, i) ==
            Edges(dependents, o, i) + if i == info then multiset(owners)[o] else 0
    decreases |owners|
  {
    if owners != [] {
      var n := |owners| - 1;
      AppendToAllEdges(dependents, owners[..n], info, o, i);
      AppendToEdges(AppendToAll(dependents, owners[..n], info), owners[n], info, o, i);
      assert owners == owners[..n] + [owners[n]];
    }
  }

  /** How many owner entries are still outstanding. */
  function Pending(owners: seq<string>, done: set<string>): nat {
    if owners == [] then 0
    else
      var n := |owners| - 1;
      Pending(owners[..n], done) + if owners[n] in done then 0 else 1
  }

  lemma PendingNone(owners: seq<string>)
    ensures Pending(owners, {}) == |owners|
  {
    if owners != [] {
      PendingNone(owners[..|owners| - 1]);
    }
  }

  /** Completing `p` settles each of its entries. */
  lemma {:induction false} PendingAfter(owners: seq<string>, done: set<string>, p: string)
    requires p !in done
    ensures Pending(owners, done) == Pending(owners, done + {p}) + multiset(owners)[p]
  {
    if owners != [] {
      var n := |owners| - 1;
      PendingAfter(owners[..n], done, p);
      assert owners == owners[..n] + [owners[n]];
    }
  }

  lemma {:induction false} PendingZero(owners: seq<string>, done: set<string>)
    ensures Pending(owners, done) == 0 <==> forall o | o in owners :: o in done
  {
    if owners != [] {
      var n := |owners| - 1;
      PendingZero(owners[..n], done);
      assert owners == owners[..n] + [owners[n]];
      assert forall o :: o in owners <==> o in owners[..n] || o == owners[n];
    }
  }

  /** The adjacency lists are the graph turned around. */
  ghost predicate ListsDependents(graph: map<ObjInfo, seq<string>>, dependents: map<string, seq<ObjInfo>>) {
    forall o, i :: Edges(dependents, o, i) == if i in graph then multiset(graph[i])[o] else 0
  }

  /** The graph as the program stores it: counters, adjacency lists and the first worklist. */
  ghost predicate Represents(graph: map<ObjInfo, seq<string>>, counters: map<string, nat>,
                             dependents: map<string, seq<ObjInfo>>, worklist: seq<ObjInfo>)
  {
    && (forall i | i in graph && graph[i] != [] :: i.configPath in counters && counters[i.configPath] == |graph[i]|)
    && ListsDependents(graph, dependents)
    && NoDuplicates(worklist)
    && (forall i :: i in worklist <==> i in graph && graph[i] == [])
  }

  ghost predicate NoDuplicates<T>(s: seq<T>) {
    forall i, j | 0 <= i < j < |s| :: s[i] != s[j]
  }

  lemma PrefixCount(s: seq<ObjInfo>, k: nat)
    requires k < |s|
    ensures multiset(s)[s[k]] >= multiset(s[..k])[s[k]] + 1
  {
    assert s == s[..k] + [s[k]] + s[k + 1..];
  }

  lemma NoDuplicatesNothing<T>()
    ensures NoDuplicates<T>([])
  {
  }

  lemma NoDuplicatesAppend<T>(s: seq<T>, x: T)
    requires NoDuplicates(s) && x !in s
    ensures NoDuplicates(s + [x])
  {
  }

  lemma NoDuplicatesConcat(a: seq<string>, b: seq<string>)
    requires NoDuplicates(a) && NoDuplicates(b) && forall x | x in a :: x !in b
    ensures NoDuplicates(a + b)
  {
    forall i, j | 0 <= i < j < |a + b| ensures (a + b)[i] != (a + b)[j] {
      if i < |a| <= j {
        assert (a + b)[i] in a && (a + b)[j] in b;
      }
    }
  }

  lemma RepresentsNothing(counters: map<string, nat>)
    ensures Represents(map[], counters, map[], [])
  {
  }

  lemma RepresentsCounted(graph: map<ObjInfo, seq<string>>, counters: map<string, nat>,
                          dependents: map<string, seq<ObjInfo>>,
                          worklist: seq<ObjInfo>, info: ObjInfo, owners: seq<string>)
    requires Represents(graph, counters, dependents, worklist)
    requires info !in graph && owners != [] && DistinctPaths(graph.Keys + {info})
    ensures Represents(graph[info := owners], counters[info.configPath := |owners|],
                       AppendToAll(dependents, owners, info), worklist)
  {
    forall o, i ensures Edges(AppendToAll(dependents, owners, info), o, i) ==
                        if i in graph[info := owners] then multiset(graph[info := owners][i])[o] else 0
    {
      AppendToAllEdges(dependents, owners, info, o, i);
    }
    forall i | i in graph[info := owners] && graph[info := owners][i] != []
      ensures i.configPath in counters[info.configPath := |owners|]
      ensures counters[info.configPath := |owners|][i.configPath] == |graph[info := owners][i]|
    {
      assert i != info ==> i.configPath != info.configPath;
    }
  }

  lemma RepresentsReady(graph: map<ObjInfo, seq<string>>, counters: map<string, nat>,
                        dependents: map<string, seq<ObjInfo>>,
                        worklist: seq<ObjInfo>, info: ObjInfo)
    requires Represents(graph, counters, dependents, worklist)
    requires info !in graph
    ensures Represents(graph[info := []], counters, dependents, worklist + [info])
  {
    assert info !in worklist;
  }
}
