/** Two archives whose restore succeeds and leaves an owner reference that names no live object: among CRDs, and
    in a dependency-ordered phase by way of a role, which nothing waits for. */
module DanglingReferences {
  import opened Results
  import opened GoStrings
  import opened Kube
  import opened ArchivePath
  import opened ArchiveCodec
  import opened ArchiveLoader
  import opened OwnerRefs
  import opened DependencyGraph
  import opened RestoreResource
  import opened Ledger
  import WorklistMeasure

  function Plain(kind: string, refs: Option<seq<OwnerRef>>): Manifest {
    Manifest(kind, None, refs, {}, false, "")
  }

  /** A live object that only a finalizer still holds. */
  function BeingDeleted(m: Manifest): Obj {
    Obj(0, 0, true, m.(finalizers := {"foregroundDeletion"}))
  }

  lemma ParsedApiVersion(group: string, version: string)
    requires '/' !in group && '/' !in version
    ensures ParseGroupVersion(group + "/" + version) == Some(GroupVersion(group, version))
  {
    ParseGroupVersionIff(group + "/" + version, group, version);
  }

  // ---- CRDs ----

  const CRDS := GVR("apiextensions.k8s.io", "v1", "customresourcedefinitions")

  function Crd(name: string): Key {
    Key(CRDS, "", name)
  }

  lemma LoadedAsCrd(name: string, obj: Resource)
    ensures SlotOf(InfoOf(Crd(name)), obj) == Slot.Crd
  {
    hide EqualFold, WriterPath;
    EqualFoldRefl("customresourcedefinitions");
    EqualFoldLength("customresourcedefinitions", "globalroles");
    EqualFoldLength("customresourcedefinitions", "roletemplates");
  }

  /** A reference that updateOwnerRefs gets past still passes once another object is there as well. */
  lemma PassesStays(ref: OwnerRef, c: Cluster, d: Cluster, mapper: RestMapper, ns: string)
    requires Passes(ref, c, mapper, ns) && c.objects.Keys <= d.objects.Keys
    ensures Passes(ref, d, mapper, ns)
  {
    hide OwnerOf;
  }

  lemma SameOwnerOf(a: OwnerRef, b: OwnerRef, mapper: RestMapper, ns: string)
    requires SameButUid(a, b)
    ensures OwnerOf(a, mapper, ns) == OwnerOf(b, mapper, ns)
  {
    hide ParseGroupVersion;
  }

  predicate AllPass(m: Manifest, c: Cluster, mapper: RestMapper, ns: string) {
    forall ref | ref in RefsOf(m) :: Passes(ref, c, mapper, ns)
  }

  lemma AllPassWrites(c: Cluster, mapper: RestMapper, info: ObjInfo, m: Manifest)
    requires AllPass(m, c, mapper, info.namespace) && m.secretType == None
    ensures var e := Restored(c, mapper, None, info, m);
            && e.ok && e.written.Some? && |RefsOf(e.written.value)| == |RefsOf(m)|
            && e.cluster == Put(c, KeyOf(info), e.written.value) && Renews(e.written.value, m)
  {
    hide Passes, ResolveRef, Put, SameButUid;
    ResolvesIff(RefsOf(m), c, mapper, info.namespace);
    RestoredOutcome(c, mapper, None, info, m);
  }

  /** An object new to the cluster is restored, and after it the owner one of its references names, which is being
      deleted and has no finalizers in the archive. */
  lemma DanglesAfter(c: Cluster, mapper: RestMapper, dependent: ObjInfo, m: Manifest, owner: ObjInfo, o: Manifest,
                     r: nat)
    requires m.secretType == None && o.secretType == None && KeyOf(dependent) != KeyOf(owner)
    requires AllPass(m, c, mapper, dependent.namespace) && AllPass(o, c, mapper, owner.namespace)
    requires r < |RefsOf(m)| && NamesOwner(RefsOf(m)[r])
    requires OwnerOf(RefsOf(m)[r], mapper, dependent.namespace) == Some(Owner(KeyOf(owner), false))
    requires KeyOf(dependent) !in c.objects && KeyOf(owner) in c.objects
    requires c.objects[KeyOf(owner)].terminating && Removable(o)
    ensures var first := Restored(c, mapper, None, dependent, m);
            var second := Restored(first.cluster, mapper, None, owner, o);
            first.ok && second.ok && Dangles(second.cluster, KeyOf(dependent), mapper)
  {
    hide Passes, OwnerOf, Put, Restored, Removable, Live;
    var first := Restored(c, mapper, None, dependent, m);
    AllPassWrites(c, mapper, dependent, m);
    var ref, ref' := RefsOf(m)[r], RefsOf(first.written.value)[r];
    assert SameButUid(ref', ref);
    SameOwnerOf(ref', ref, mapper, dependent.namespace);
    PutEffect(c, KeyOf(dependent), first.written.value);
    forall x | x in RefsOf(o) ensures Passes(x, first.cluster, mapper, owner.namespace) {
      PassesStays(x, c, first.cluster, mapper, owner.namespace);
    }
    AllPassWrites(first.cluster, mapper, owner, o);
    var second := Restored(first.cluster, mapper, None, owner, o);
    PutEffect(first.cluster, KeyOf(owner), second.written.value);
    DependentFirstDanglesIff(Account(c, map[], {}), mapper, None, None, dependent, m, owner, o, ref');
    assert ref' in RefsOf(second.cluster.objects[KeyOf(dependent)].manifest);
  }

  /** The object is live, and some reference it carries names an object that is not. */
  predicate Dangles(c: Cluster, k: Key, mapper: RestMapper) {
    k in c.objects && exists ref | ref in RefsOf(c.objects[k].manifest) ::
      NamesOwner(ref) && !Live(ref, c, mapper, k.namespace)
  }

  lemma CrdOwner(owner: Key, uid: nat, mapper: RestMapper)
    requires owner == Crd(owner.name)
    requires mapper == map[GVK("apiextensions.k8s.io", "v1", "CustomResourceDefinition") :=
                             Mapping("customresourcedefinitions", false)]
    ensures OwnerOf(OwnerRef("apiextensions.k8s.io" + "/" + "v1", "CustomResourceDefinition", owner.name, uid), mapper,
                    "") ==
            Some(Owner(owner, false))
  {
    hide ParseGroupVersion;
    ParsedApiVersion("apiextensions.k8s.io", "v1");
  }

  /** A CRD that is being deleted owns another. The archive has both, the owner without finalizers, and Go's map
      iteration presents the dependent first: both restores succeed, and the reference is left dangling. */
  lemma CrdsDangle() returns (c: Cluster, mapper: RestMapper, dependent: Key, m: Manifest, owner: Key, o: Manifest)
    ensures forall obj :: SlotOf(InfoOf(dependent), obj) == SlotOf(InfoOf(owner), obj) == Slot.Crd
    ensures Fresher(c)
    ensures var first := Restored(c, mapper, None, InfoOf(dependent), m);
            var second := Restored(first.cluster, mapper, None, InfoOf(owner), o);
            first.ok && second.ok && Dangles(second.cluster, dependent, mapper)
  {
    hide SlotOf, ParseGroupVersion, OwnerOf, Restored, Dangles, WriterPath;
    owner, dependent := Crd("widgets.example.com"), Crd("gadgets.example.com");
    forall obj ensures SlotOf(InfoOf(dependent), obj) == SlotOf(InfoOf(owner), obj) == Slot.Crd {
      LoadedAsCrd("widgets.example.com", obj);
      LoadedAsCrd("gadgets.example.com", obj);
    }
    var kind := "CustomResourceDefinition";
    mapper := map[GVK("apiextensions.k8s.io", "v1", kind) := Mapping("customresourcedefinitions", false)];
    var ref := OwnerRef("apiextensions.k8s.io" + "/" + "v1", kind, owner.name, 7);
    CrdOwner(owner, 7, mapper);
    o, m := Plain(kind, None), Plain(kind, Some([ref]));
    c := Cluster(map[owner := BeingDeleted(o)], 1);
    assert KeyOf(InfoOf(owner)) == owner && KeyOf(InfoOf(dependent)) == dependent;
    assert AllPass(m, c, mapper, "") && AllPass(o, c, mapper, "");
    DanglesAfter(c, mapper, InfoOf(dependent), m, InfoOf(owner), o, 0);
  }

  // ---- a role ----

  const MANAGEMENT := "management.cattle.io"

  function Managed(resource: string, name: string): Key {
    Key(GVR(MANAGEMENT, "v3", resource), "", name)
  }

  function RefTo(kind: string, name: string): OwnerRef {
    OwnerRef(MANAGEMENT + "/" + "v3", kind, name, 7)
  }

  function ManagedKinds(): RestMapper {
    map[GVK(MANAGEMENT, "v3", "User") := Mapping("users", false),
        GVK(MANAGEMENT, "v3", "GlobalRole") := Mapping("globalroles", false)]
  }

  lemma UserIsAwaited(name: string)
    ensures Eligible(RefTo("User", name), ManagedKinds(), "") == Some(Owner(Managed("users", name), false))
    ensures OwnerOf(RefTo("User", name), ManagedKinds(), "") == Some(Owner(Managed("users", name), false))
  {
    hide ParseGroupVersion, EqualFold;
    ParsedApiVersion(MANAGEMENT, "v3");
    EqualFoldLength("User", "globalrole");
    EqualFoldLength("User", "roletemplate");
  }

  lemma RoleIsNotAwaited(name: string)
    ensures Eligible(RefTo("GlobalRole", name), ManagedKinds(), "") == None
    ensures OwnerOf(RefTo("GlobalRole", name), ManagedKinds(), "") == Some(Owner(Managed("globalroles", name), false))
  {
    hide ParseGroupVersion;
    ParsedApiVersion(MANAGEMENT, "v3");
    assert ToLower("GlobalRole") == ToLower("globalrole");
  }

  /** Two users, a role that waits for one of them, and a binding that refers to the other and to the role. */
  datatype Four = Four(u: ObjInfo, v: ObjInfo, role: ObjInfo, binding: ObjInfo)

  function TheFour(): Four {
    Four(InfoOf(Managed("users", "u")), InfoOf(Managed("users", "v")), InfoOf(Managed("globalroles", "r")),
         InfoOf(Managed("globalrolebindings", "b")))
  }

  function RoleManifest(): Manifest {
    Plain("GlobalRole", Some([RefTo("User", "v")]))
  }

  function BindingManifest(): Manifest {
    Plain("GlobalRoleBinding", Some([RefTo("User", "u"), RefTo("GlobalRole", "r")]))
  }

  function ArchivedFour(): Manifests {
    var f := TheFour();
    map[f.u := Plain("User", None), f.v := Plain("User", None), f.role := RoleManifest(),
        f.binding := BindingManifest()]
  }

  /** The binding waits for the user alone. */
  lemma BindingWaitsForUser()
    ensures OwnersOf(TheFour().binding, BindingManifest(), ManagedKinds(), {}) == [OwnerPath(Managed("users", "u"))]
    ensures OwnersOf(TheFour().role, RoleManifest(), ManagedKinds(), {}) == [OwnerPath(Managed("users", "v"))]
  {
    hide OwnerPath, Eligible, WriterPath;
    UserIsAwaited("u");
    UserIsAwaited("v");
    RoleIsNotAwaited("r");
    var refs := [RefTo("User", "u"), RefTo("GlobalRole", "r")];
    var kinds := ManagedKinds();
    assert refs[..1] == [RefTo("User", "u")] && refs[..1][..0] == [];
    assert CountedOwners([], kinds, "", {}) == [];
    assert CountedOwners(refs[..1], kinds, "", {}) == [] + [OwnerPath(Managed("users", "u"))];
    assert CountedOwners(refs, kinds, "", {}) == CountedOwners(refs[..1], kinds, "", {}) + [];
    var one := [RefTo("User", "v")];
    assert one[..0] == [];
    assert CountedOwners(one, kinds, "", {}) == [] + [OwnerPath(Managed("users", "v"))];
  }

  lemma ManagedWellFormed(resource: string, name: string)
    requires '.' !in resource && '#' !in resource && '/' !in resource && '/' !in name
    ensures WellFormed(Managed(resource, name))
  {
  }

  lemma FourPaths()
    ensures var f := TheFour();
            && f.u.configPath == OwnerPath(Managed("users", "u")) && f.v.configPath == OwnerPath(Managed("users", "v"))
            && f.u.configPath != f.v.configPath && f.u.configPath != f.role.configPath
            && f.u.configPath != f.binding.configPath && f.v.configPath != f.role.configPath
            && f.v.configPath != f.binding.configPath && f.role.configPath != f.binding.configPath
  {
    hide WriterPath, OwnerPath, PrunePath, WellFormed;
    ManagedWellFormed("users", "u");
    ManagedWellFormed("users", "v");
    ManagedWellFormed("globalroles", "r");
    ManagedWellFormed("globalrolebindings", "b");
    var u, v, r, b := Managed("users", "u"), Managed("users", "v"), Managed("globalroles", "r"),
        Managed("globalrolebindings", "b");
    PathsAgree(u);
    PathsAgree(v);
    PathsDiffer(u, v);
    PathsDiffer(u, r);
    PathsDiffer(u, b);
    PathsDiffer(v, r);
    PathsDiffer(v, b);
    PathsDiffer(r, b);
  }

  lemma PathsDiffer(k: Key, l: Key)
    requires WellFormed(k) && WellFormed(l) && k != l
    ensures WriterPath(k) != WriterPath(l)
  {
    hide WriterPath, WellFormed;
    if WriterPath(k) == WriterPath(l) {
      WriterPathInjective(k, l);
    }
  }

  /** The phase's graph, and the counters, lists and queue that represent it when Go's map presents u first. */
  function Lists(): map<string, seq<ObjInfo>> {
    var f := TheFour();
    map[f.u.configPath := [f.binding], f.v.configPath := [f.role]]
  }

  function FirstWork(): WorklistMeasure.Work {
    var f := TheFour();
    WorklistMeasure.Work([f.u, f.v], {}, map[f.role.configPath := 1, f.binding.configPath := 1])
  }

  lemma FourGraph()
    ensures var f := TheFour();
            Graph(ArchivedFour(), ManagedKinds(), {}) ==
            map[f.u := [], f.v := [], f.role := [f.v.configPath], f.binding := [f.u.configPath]]
  {
    hide WriterPath, OwnerPath, OwnersOf;
    FourPaths();
    BindingWaitsForUser();
    var f := TheFour();
    NoReferences(f.u, Plain("User", None), ManagedKinds(), {});
    NoReferences(f.v, Plain("User", None), ManagedKinds(), {});
  }

  lemma FourRepresented()
    ensures Represents(Graph(ArchivedFour(), ManagedKinds(), {}), FirstWork().counters, Lists(), FirstWork().queue)
  {
    hide TheFour, Graph, Represents, OwnerPath;
    FourGraph();
    FourPaths();
    FourRepresent(TheFour());
  }

  lemma FourRepresent(f: Four)
    requires f.u.configPath != f.v.configPath && f.u.configPath != f.role.configPath
    requires f.u.configPath != f.binding.configPath && f.v.configPath != f.role.configPath
    requires f.v.configPath != f.binding.configPath && f.role.configPath != f.binding.configPath
    ensures Represents(map[f.u := [], f.v := [], f.role := [f.v.configPath], f.binding := [f.u.configPath]],
                       map[f.role.configPath := 1, f.binding.configPath := 1],
                       map[f.u.configPath := [f.binding], f.v.configPath := [f.role]], [f.u, f.v])
  {
    FourEdges(f);
  }

  lemma FourEdges(f: Four)
    requires f.u.configPath != f.v.configPath && f.u.configPath != f.role.configPath
    requires f.u.configPath != f.binding.configPath && f.v.configPath != f.role.configPath
    requires f.v.configPath != f.binding.configPath && f.role.configPath != f.binding.configPath
    ensures ListsDependents(map[f.u := [], f.v := [], f.role := [f.v.configPath], f.binding := [f.u.configPath]],
                            map[f.u.configPath := [f.binding], f.v.configPath := [f.role]])
  {
    var graph := map[f.u := [], f.v := [], f.role := [f.v.configPath], f.binding := [f.u.configPath]];
    var lists := map[f.u.configPath := [f.binding], f.v.configPath := [f.role]];
    forall o, i ensures Edges(lists, o, i) == if i in graph then multiset(graph[i])[o] else 0 {
      assert graph.Keys == {f.u, f.v, f.role, f.binding};
      if i in graph {
        assert graph[i] == if i == f.role then [f.v.configPath] else if i == f.binding then [f.u.configPath] else [];
      }
    }
  }

  /** After both users the binding comes first, since the role was queued behind it. */
  lemma BindingComesBeforeRole()
    ensures WorklistMeasure.Run(Lists(), FirstWork(), [true, true]).queue == [TheFour().binding, TheFour().role]
  {
    hide TheFour, OwnerPath;
    FourPaths();
    var f := TheFour();
    var w0 := FirstWork();
    var w1 := TurnReleasesOne(Lists(), w0, f.binding);
    assert w0.queue[1..] + [f.binding] == [f.v, f.binding];
    var w2 := TurnReleasesOne(Lists(), w1, f.role);
    assert w1.queue[1..] + [f.role] == [f.binding, f.role];
    assert [true, true][1..] == [true] && [true][1..] == [];
    assert WorklistMeasure.Run(Lists(), w1, [true]) == w2;
  }

  /** A turn that restores an object with one dependent, whose last owner it was. */
  lemma TurnReleasesOne(lists: WorklistMeasure.Lists, w: WorklistMeasure.Work, dependent: ObjInfo)
    returns (w': WorklistMeasure.Work)
    requires w.queue != [] && w.queue[0].configPath !in w.created
    requires WorklistMeasure.DependentsOf(lists, w.queue[0].configPath) == [dependent]
    requires WorklistMeasure.Counter(w.counters, dependent.configPath) == 1
    ensures w' == WorklistMeasure.Turn(lists, w, true)
    ensures w' == WorklistMeasure.Work(w.queue[1..] + [dependent], w.created + {w.queue[0].configPath},
                                       w.counters[dependent.configPath := 0])
  {
    w' := WorklistMeasure.Turn(lists, w, true);
    var rest := w.(queue := w.queue[1..]);
    assert [dependent][..0] == [];
    assert WorklistMeasure.Release(rest, []) == rest;
    assert WorklistMeasure.Release(rest, [dependent]) ==
           rest.(counters := w.counters[dependent.configPath := 0], queue := rest.queue + [dependent]);
  }

  /** A role that is being deleted and has no finalizers in the archive, and in the archive a binding that refers to
      a user and to it. The binding waits for the user alone, is restored before the role, and is left dangling; all
      four restores succeed. */
  lemma RoleDangles() returns (c: Cluster)
    ensures Fresher(c)
    ensures var f, kinds := TheFour(), ManagedKinds();
            var e1 := Restored(c, kinds, None, f.u, ArchivedFour()[f.u]);
            var e2 := Restored(e1.cluster, kinds, None, f.v, ArchivedFour()[f.v]);
            var e3 := Restored(e2.cluster, kinds, None, f.binding, ArchivedFour()[f.binding]);
            var e4 := Restored(e3.cluster, kinds, None, f.role, ArchivedFour()[f.role]);
            e1.ok && e2.ok && e3.ok && e4.ok && Dangles(e4.cluster, KeyOf(f.binding), kinds)
  {
    hide WriterPath, OwnerPath, OwnerOf, Eligible, Dangles, Rewritten, ManagedKinds;
    var f, kinds, user := TheFour(), ManagedKinds(), Plain("User", None);
    FourPaths();
    UserIsAwaited("u");
    UserIsAwaited("v");
    RoleIsNotAwaited("r");
    c := Cluster(map[Managed("globalroles", "r") := BeingDeleted(RoleManifest())], 1);
    AllPassWrites(c, kinds, f.u, user);
    var e1 := Restored(c, kinds, None, f.u, user);
    PutEffect(c, KeyOf(f.u), e1.written.value);
    AllPassWrites(e1.cluster, kinds, f.v, user);
    var e2 := Restored(e1.cluster, kinds, None, f.v, user);
    PutEffect(e1.cluster, KeyOf(f.v), e2.written.value);
    assert AllPass(BindingManifest(), e2.cluster, kinds, "");
    assert AllPass(RoleManifest(), e2.cluster, kinds, "");
    DanglesAfter(e2.cluster, kinds, f.binding, BindingManifest(), f.role, RoleManifest(), 1);
  }

  lemma ManagedIsClusterScoped(resource: string, name: string)
    requires |resource| != 25
    ensures SlotOf(InfoOf(Managed(resource, name)), map[]) == ClusterScoped
  {
    hide EqualFold, WriterPath;
    EqualFoldLength(resource, "customresourcedefinitions");
  }

  /** All four belong to the dependency-ordered phase of cluster-scoped objects. */
  lemma FourAreClusterScoped()
    ensures var f := TheFour(); forall i | i in {f.u, f.v, f.role, f.binding} :: SlotOf(i, map[]) == ClusterScoped
  {
    hide SlotOf, WriterPath;
    ManagedIsClusterScoped("users", "u");
    ManagedIsClusterScoped("users", "v");
    ManagedIsClusterScoped("globalroles", "r");
    ManagedIsClusterScoped("globalrolebindings", "b");
  }

  // ---- a CRD and an owner of a later phase ----

  /** A CRD whose owner is an ordinary cluster-scoped object is always restored before it, so there the reference
      dangles whatever the iteration order. */
  lemma CrdOfLaterPhaseDangles() returns (c: Cluster, dependent: Key, m: Manifest, owner: Key, o: Manifest)
    ensures SlotOf(InfoOf(dependent), map[]) == Slot.Crd && SlotOf(InfoOf(owner), map[]) == ClusterScoped && Fresher(c)
    ensures var first := Restored(c, ManagedKinds(), None, InfoOf(dependent), m);
            var second := Restored(first.cluster, ManagedKinds(), None, InfoOf(owner), o);
            first.ok && second.ok && Dangles(second.cluster, dependent, ManagedKinds())
  {
    hide SlotOf, OwnerOf, Restored, Dangles, WriterPath, ManagedKinds, Eligible;
    owner, dependent := Managed("users", "u"), Crd("gadgets.example.com");
    LoadedAsCrd("gadgets.example.com", map[]);
    ManagedIsClusterScoped("users", "u");
    UserIsAwaited("u");
    o, m := Plain("User", None), Plain("CustomResourceDefinition", Some([RefTo("User", "u")]));
    c := Cluster(map[owner := BeingDeleted(o)], 1);
    assert KeyOf(InfoOf(owner)) == owner && KeyOf(InfoOf(dependent)) == dependent;
    assert AllPass(m, c, ManagedKinds(), "") && AllPass(o, c, ManagedKinds(), "");
    DanglesAfter(c, ManagedKinds(), InfoOf(dependent), m, InfoOf(owner), o, 0);
  }
}
