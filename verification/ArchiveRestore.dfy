/** Restoring a loaded archive: what is in the cluster afterwards, and whom its owner references name. */
module ArchiveRestore {
  import opened Results
  import opened GoStrings
  import opened Kube
  import opened ArchivePath
  import opened OwnerRefs
  import opened Fixpoint
  import opened DependencyGraph
  import opened RestoreResource
  import opened Ledger
  import opened Worklist
  import opened Restore
  import opened ArchiveCodec
  import opened ArchiveLoader

  /** The typed view of an unstructured object. */
  type View = Resource -> Manifest

  function Seen(objects: map<ObjInfo, Resource>, view: View): (m: Manifests)
    ensures m.Keys == objects.Keys
  {
    map i | i in objects :: view(objects[i])
  }

  // ---- the archive is well loaded ----

  ghost predicate KeysPlaced(held: map<string, Archived>) {
    forall p | p in held :: p == WriterPath(held[p].key) && '/' !in held[p].key.name
  }

  /** Everything loaded stands under the identity the writer filed it by. */
  lemma LoadedIdentity(c: Contents, held: map<string, Archived>, slot: Slot, info: ObjInfo)
    requires HoldsExactly(c, held) && KeysPlaced(held)
    requires slot != SkippedBuiltin && info in SlotMap(c, slot)
    ensures info.configPath in held && info == InfoOf(held[info.configPath].key)
            && KeyOf(info) == held[info.configPath].key
    ensures info.configPath in c.paths && SlotMap(c, slot)[info] == held[info.configPath].obj
    ensures SlotOf(info, held[info.configPath].obj) == slot
  {
    hide WriterPath, IsFilters, SlotOf;
    assert In(c, slot, info, SlotMap(c, slot)[info]);
    assert InArchive(held, info, SlotMap(c, slot)[info]);
    var p :| p in held && !IsFilters(p) && info == InfoOf(held[p].key) && SlotMap(c, slot)[info] == held[p].obj;
    assert p == WriterPath(held[p].key) == info.configPath;
  }

  lemma SlotsApart(info: ObjInfo, obj: Resource, other: Resource)
    ensures SlotOf(info, obj) == Crd ==> SlotOf(info, other) != ClusterScoped && SlotOf(info, other) != Namespaced
    ensures SlotOf(info, obj) == ClusterScoped ==> info.namespace == ""
    ensures SlotOf(info, obj) == Namespaced ==> info.namespace != ""
  {
    hide IsCrd, Builtin;
  }

  lemma LoadedIsWellLoaded(c: Contents, held: map<string, Archived>)
    requires HoldsExactly(c, held) && KeysPlaced(held)
    ensures WellLoaded(c.crds.Keys, c.clusterScoped.Keys, c.namespaced.Keys)
  {
    hide WriterPath, IsFilters, SlotOf, HoldsExactly, InfoOf, KeysPlaced;
    forall i | i in c.crds ensures Identified(i, held) && SlotOf(i, held[i.configPath].obj) == Crd {
      LoadedIdentity(c, held, Crd, i);
    }
    forall i | i in c.clusterScoped
      ensures Identified(i, held) && SlotOf(i, held[i.configPath].obj) == ClusterScoped && i.namespace == ""
    {
      LoadedIdentity(c, held, ClusterScoped, i);
      SlotsApart(i, held[i.configPath].obj, map[]);
    }
    forall i | i in c.namespaced
      ensures Identified(i, held) && SlotOf(i, held[i.configPath].obj) == Namespaced && i.namespace != ""
    {
      LoadedIdentity(c, held, Namespaced, i);
      SlotsApart(i, held[i.configPath].obj, map[]);
    }
    IdentifiedAreDistinct(c.crds.Keys + c.clusterScoped.Keys + c.namespaced.Keys, held);
  }

  predicate Identified(i: ObjInfo, held: map<string, Archived>) {
    i.configPath in held && i == InfoOf(held[i.configPath].key)
  }

  lemma IdentifiedAreDistinct(infos: set<ObjInfo>, held: map<string, Archived>)
    requires forall i | i in infos :: Identified(i, held)
    ensures Distinct(infos)
  {
    hide WriterPath;
    forall i, j | i in infos && j in infos && (i.configPath == j.configPath || KeyOf(i) == KeyOf(j)) ensures i == j {
      assert KeyOf(i) == held[i.configPath].key && KeyOf(j) == held[j.configPath].key;
    }
  }

  // ---- the restore phases are complete ----

  /** Every owner the phase's objects wait for is one of them, and there is no cycle. */
  ghost predicate Orderly(loaded: Manifests, mapper: RestMapper, before: set<string>) {
    DistinctPaths(loaded.Keys) ==>
      var waits := Waits(loaded, mapper, before);
      && Acyclic(Problem(waits, waits.Keys, before))
      && forall n | n in waits :: OwnersPresent(Problem(waits, waits.Keys, before), n)
  }

  /** An orderly phase without errors restores every object that is not skipped. */
  lemma PhaseComplete(loaded: Manifests, mapper: RestMapper, before: set<string>, done: seq<string>)
    requires PhaseExact(loaded, mapper, before, [], done) && Orderly(loaded, mapper, before)
    requires Paths(loaded.Keys) !! before
    ensures Elements(done) == Waits(loaded, mapper, before).Keys
    ensures forall i | i in loaded :: i.configPath in Elements(done) <==> !Skipped(i, loaded[i])
  {
    hide Skipped, InOrder, NoDuplicates, Acyclic, Restorable, OwnersOf, OwnersPresent;
    var waits := Waits(loaded, mapper, before);
    GraphKeys(loaded, mapper, before);
    ElementsNothing();
    assert waits.Keys - Elements([]) == waits.Keys;
    EverythingRestorable(Problem(waits, waits.Keys, before));
  }

  /** The paths a phase adds to `created` when it completes. */
  ghost function Restorables(loaded: Manifests, mapper: RestMapper, before: set<string>): set<string> {
    if DistinctPaths(loaded.Keys) then Waits(loaded, mapper, before).Keys else {}
  }

  /** No reference in what a phase writes defeats discovery. */
  ghost predicate Resolvable(loaded: Manifests, mapper: RestMapper, before: set<string>) {
    forall i | i in loaded :: !HasUnresolvable(Generated(i, loaded[i], mapper, before), mapper, i.namespace)
  }

  /** Owners are archived and acyclic in both dependency-ordered phases. */
  ghost predicate OwnersArchived(c: Contents, view: View, mapper: RestMapper) {
    var crds := Paths(c.crds.Keys);
    && Orderly(Seen(c.clusterScoped, view), mapper, crds)
    && Orderly(Seen(c.namespaced, view), mapper, crds + Restorables(Seen(c.clusterScoped, view), mapper, crds))
  }

  ghost predicate AllResolvable(c: Contents, view: View, mapper: RestMapper) {
    var crds := Paths(c.crds.Keys);
    && (forall i | i in c.crds :: !HasUnresolvable(view(c.crds[i]), mapper, i.namespace))
    && Resolvable(Seen(c.clusterScoped, view), mapper, crds)
    && Resolvable(Seen(c.namespaced, view), mapper, crds + Restorables(Seen(c.clusterScoped, view), mapper, crds))
  }

  /** What of the archive a restore means to bring back: not Rancher's own deployments, not fleet's
      registration secrets, and nothing a webhook refuses. */
  predicate Wanted(slot: Slot, info: ObjInfo, m: Manifest, faults: map<string, Fault>) {
    (slot != Crd ==> !Skipped(info, m)) && Effective(info, m, FaultOf(faults, info))
  }

  lemma WantedIff(slot: Slot, info: ObjInfo, m: Manifest, faults: map<string, Fault>)
    ensures Wanted(slot, info, m, faults) <==>
              && info.configPath !in faults
              && !(info.gvr.resource == "secrets"
                   && m.secretType == Some("fleet.cattle.io/cluster-registration-values"))
              && (slot == Crd || !(
                && m.kind == "Deployment" && info.namespace == "cattle-system"
                && exists prefix :: info.name == prefix + "rancher" || info.name == prefix + "rancher-webhook"))
  {
    hide HasSuffix;
    HasSuffixIff(info.name, "rancher");
    HasSuffixIff(info.name, "rancher-webhook");
  }

  /** Nothing waits for a builtin role, which the loader leaves out: not for a role at all. */
  lemma SkippedIsNotAwaited(ref: OwnerRef, mapper: RestMapper, ns: string, created: set<string>, info: ObjInfo,
                            obj: Resource)
    requires Awaits(ref, mapper, ns, created, KeyOf(info)) && EqualFold(info.gvr.resource, ref.kind + "s")
    ensures SlotOf(info, obj) != SkippedBuiltin
  {
    hide SlotOf;
    SlotIff(info, obj);
    var resource := ToLower(info.gvr.resource);
    assert resource[..|ref.kind|] == ToLower(ref.kind);
    assert "globalroles"[..10] == "globalrole" && "roletemplates"[..12] == "roletemplate";
  }

  predicate LiveAs(c: Cluster, k: Key, m: Manifest) {
    k in c.objects && Renews(c.objects[k].manifest, m)
  }

  /** The object is live as expected, its owner references renewed or dropped, if and only if it survives the
      restore. */
  predicate Back(d: Cluster, start: Cluster, k: Key, expected: Manifest) {
    if Survives(start, k, expected) then LiveAs(d, k, expected) else k !in d.objects
  }

  /** What a restored object should look like: as archived, a CRD merged with the one the cluster had at the start. */
  function Expected(merge: Merge, start: Cluster, slot: Slot, info: ObjInfo, m: Manifest): Manifest {
    if slot == Crd then MergedCrd(merge, start, info, m) else m
  }

  ghost predicate AllBack(d: Cluster, c: Contents, view: View, merge: Merge, start: Cluster,
                          faults: map<string, Fault>) {
    forall slot, info | info in SlotMap(c, slot) && Wanted(slot, info, view(SlotMap(c, slot)[info]), faults) ::
      Back(d, start, KeyOf(info), Expected(merge, start, slot, info, view(SlotMap(c, slot)[info])))
  }

  /** What an object brought back looks like, field by field; a CRD's content apart. */
  lemma BackIsAsArchived(d: Cluster, c: Contents, view: View, merge: Merge, start: Cluster,
                         faults: map<string, Fault>, slot: Slot, info: ObjInfo)
    requires AllBack(d, c, view, merge, start, faults) && info in SlotMap(c, slot)
    requires Wanted(slot, info, view(SlotMap(c, slot)[info]), faults) && KeyOf(info) in d.objects
    ensures var m, live := view(SlotMap(c, slot)[info]), d.objects[KeyOf(info)].manifest;
            && live.kind == m.kind && live.secretType == m.secretType && live.finalizers == m.finalizers
            && live.specFinalizers == m.specFinalizers && (slot != Crd ==> live.payload == m.payload)
            && (live.ownerRefs == None || SameRefs(RefsOf(live), RefsOf(m)))
  {
    hide Wanted, Survives, KeyOf;
    var m := view(SlotMap(c, slot)[info]);
    assert Back(d, start, KeyOf(info), Expected(merge, start, slot, info, m));
    RenewedFields(d.objects[KeyOf(info)].manifest, Expected(merge, start, slot, info, m));
  }

  /** The same references, each to the same owner. */
  predicate SameRefs(refs: seq<OwnerRef>, archived: seq<OwnerRef>) {
    |refs| == |archived| && forall i | 0 <= i < |refs| ::
      refs[i] == archived[i]
      || (&& refs[i].OwnerRef? && archived[i].OwnerRef? && refs[i].apiVersion == archived[i].apiVersion
          && refs[i].kind == archived[i].kind && refs[i].name == archived[i].name)
  }

  lemma RenewedFields(written: Manifest, m: Manifest)
    requires Renews(written, m)
    ensures written.kind == m.kind && written.secretType == m.secretType && written.finalizers == m.finalizers
    ensures written.specFinalizers == m.specFinalizers && written.payload == m.payload
    ensures written.ownerRefs == None || SameRefs(RefsOf(written), RefsOf(m))
  {
    var w', m' := written.(ownerRefs := None), m.(ownerRefs := None);
    assert w'.kind == m'.kind && w'.secretType == m'.secretType && w'.finalizers == m'.finalizers;
    assert w'.specFinalizers == m'.specFinalizers && w'.payload == m'.payload;
  }

  // ---- whom the owner references name ----

  /** k is archived and being deleted, and the archived copy has no finalizers. */
  predicate DoomedArchived(start: Cluster, c: Contents, view: View, k: Key) {
    exists slot, info | info in SlotMap(c, slot) ::
      KeyOf(info) == k && !Survives(start, k, view(SlotMap(c, slot)[info]))
  }

  /** ... and the restore means to bring it back. */
  predicate DoomedWanted(start: Cluster, c: Contents, view: View, faults: map<string, Fault>, k: Key) {
    exists slot, info | info in SlotMap(c, slot) ::
      KeyOf(info) == k && Wanted(slot, info, view(SlotMap(c, slot)[info]), faults)
      && !Survives(start, k, view(SlotMap(c, slot)[info]))
  }

  /** A reference of a restored object names a live uid exactly if its owner is not such an object. */
  predicate RefExact(d: Cluster, start: Cluster, c: Contents, view: View, mapper: RestMapper,
                     faults: map<string, Fault>,
                     ns: string, ref: OwnerRef)
  {
    NamesOwner(ref) ==>
      && OwnerOf(ref, mapper, ns).Some?
      && (Live(ref, d, mapper, ns) <==> !DoomedWanted(start, c, view, faults, OwnerOf(ref, mapper, ns).value.key))
  }

  /** Owner-reference integrity of everything the restore has brought back. */
  ghost predicate AllRefsExact(d: Cluster, start: Cluster, c: Contents, view: View, mapper: RestMapper,
                               faults: map<string, Fault>)
  {
    forall slot, info, ref | info in SlotMap(c, slot) && Wanted(slot, info, view(SlotMap(c, slot)[info]), faults)
        && KeyOf(info) in d.objects && ref in RefsOf(d.objects[KeyOf(info)].manifest) ::
      RefExact(d, start, c, view, mapper, faults, info.namespace, ref)
  }

  predicate Changed(start: Cluster, d: Cluster, k: Key) {
    k in d.objects && (k !in start.objects || d.objects[k] != start.objects[k])
  }

  /** Even where the restore failed: a reference names a live uid unless its owner is doomed, and always if the
      restore had to wait for its owner. */
  predicate RefSound(d: Cluster, start: Cluster, c: Contents, view: View, mapper: RestMapper, k: Key, ref: OwnerRef) {
    NamesOwner(ref) && !Live(ref, d, mapper, k.namespace) ==>
      && OwnerOf(ref, mapper, k.namespace).Some?
      && DoomedArchived(start, c, view, OwnerOf(ref, mapper, k.namespace).value.key)
      && (k in OrderedKeys(c) ==> Eligible(ref, mapper, k.namespace) == None)
  }

  ghost predicate ChangesSound(d: Cluster, start: Cluster, c: Contents, view: View, mapper: RestMapper) {
    forall k, ref | Changed(start, d, k) && ref in RefsOf(d.objects[k].manifest) ::
      RefSound(d, start, c, view, mapper, k, ref)
  }

  /** Nothing doomed, nothing dangling. */
  lemma NothingDoomedNothingDangles(d: Cluster, start: Cluster, c: Contents, view: View, mapper: RestMapper, k: Key,
                                    ref: OwnerRef)
    requires ChangesSound(d, start, c, view, mapper)
    requires forall l :: !DoomedArchived(start, c, view, l)
    requires Changed(start, d, k) && ref in RefsOf(d.objects[k].manifest) && NamesOwner(ref)
    ensures Live(ref, d, mapper, k.namespace)
  {
    hide DoomedArchived, Live, OwnerOf, Eligible;
    assert RefSound(d, start, c, view, mapper, k, ref);
  }

  /** Objects of the dependency-ordered phases. */
  function OrderedKeys(c: Contents): set<Key> {
    KeysOf(c.clusterScoped.Keys) + KeysOf(c.namespaced.Keys)
  }

  /** No object the cluster had is lost, unless it is archived and doomed. */
  ghost predicate LosesOnlyDoomed(start: Cluster, d: Cluster, c: Contents, view: View) {
    forall k | k in start.objects ::
      (k in d.objects && d.objects[k].uid == start.objects[k].uid) || DoomedArchived(start, c, view, k)
  }

  // ---- from the phases' objects to the archive's ----

  /** The phases change of an object only its owner references and, for CRDs, its content. */
  predicate SameFate(w: Manifest, m: Manifest) {
    w.(ownerRefs := None, payload := "") == m.(ownerRefs := None, payload := "")
  }

  lemma FateDecides(w: Manifest, m: Manifest, c: Cluster, info: ObjInfo, fault: Option<Fault>)
    requires SameFate(w, m)
    ensures Survives(c, KeyOf(info), w) <==> Survives(c, KeyOf(info), m)
    ensures Effective(info, w, fault) <==> Effective(info, m, fault)
  {
    var w', m' := w.(ownerRefs := None, payload := ""), m.(ownerRefs := None, payload := "");
    assert w'.finalizers == m'.finalizers && w'.specFinalizers == m'.specFinalizers && w'.secretType == m'.secretType;
  }

  lemma GeneratedFate(info: ObjInfo, m: Manifest, mapper: RestMapper, before: set<string>)
    ensures SameFate(Generated(info, m, mapper, before), m) && Renews(Generated(info, m, mapper, before), m)
  {
    hide Skipped, OwnersOf, HasRejected;
  }

  lemma RenewsTransitive(a: Manifest, b: Manifest, c: Manifest)
    requires Renews(a, b) && Renews(b, c)
    ensures Renews(a, c)
  {
  }

  function PartFor(parts: Archive, slot: Slot): Part {
    match slot
    case SkippedBuiltin => Part(map[], {}, {})
    case Crd => parts.crds
    case ClusterScoped => parts.clusterScoped
    case Namespaced => parts.namespaced
  }

  /** The phases' objects are the archive's. */
  ghost predicate Matches(c: Contents, view: View, merge: Merge, start: Cluster, parts: Archive) {
    && (forall slot :: PartFor(parts, slot).objects.Keys == SlotMap(c, slot).Keys)
    && forall slot, info | info in SlotMap(c, slot) && info.configPath in PartFor(parts, slot).tried ::
      MatchesAt(view(SlotMap(c, slot)[info]), PartFor(parts, slot), merge, start, slot, info)
  }

  predicate MatchesAt(m: Manifest, part: Part, merge: Merge, start: Cluster, slot: Slot, info: ObjInfo)
    requires info in part.objects
  {
    && SameFate(part.objects[info], m)
    && (info.configPath in part.done ==> Renews(part.objects[info], Expected(merge, start, slot, info, m)))
  }

  lemma CrdsMatch(before: Manifests, after: Manifests, merge: Merge, start: Cluster, done: set<string>,
                  tried: set<string>,
                  info: ObjInfo)
    requires CrdsMerged(before, after, merge, start, done) && info in before
    ensures MatchesAt(before[info], Part(after, done, tried), merge, start, Crd, info)
  {
    assert after[info].(payload := "").(ownerRefs := None) == before[info].(payload := "").(ownerRefs := None);
  }

  lemma GeneratedMatch(loaded: Manifests, mapper: RestMapper, before: set<string>, merge: Merge, start: Cluster,
                       done: set<string>, tried: set<string>, slot: Slot, info: ObjInfo)
    requires info in loaded && slot != Crd
    ensures MatchesAt(loaded[info], Part(GeneratedAll(loaded, mapper, before), done, tried), merge, start, slot, info)
  {
    hide Generated, Renews;
    GeneratedFate(info, loaded[info], mapper, before);
  }

  /** Every object of the archive that a phase does not skip was restored. */
  ghost predicate Complete(c: Contents, view: View, parts: Archive) {
    forall slot, info | info in SlotMap(c, slot) ::
      info.configPath in PartFor(parts, slot).done <==> (slot != Crd ==> !Skipped(info, view(SlotMap(c, slot)[info])))
  }

  lemma NotExcused(run: RestoreRun, objects: Manifests, path: string)
    requires run.faults == map[] && forall i | i in objects :: !HasUnresolvable(objects[i], run.mapper, i.namespace)
    ensures !run.Excused(objects, path)
  {
    hide HasUnresolvable;
  }

  lemma NoErrors(run: RestoreRun, objects: Manifests, errors: seq<string>)
    requires run.faults == map[] && forall i | i in objects :: !HasUnresolvable(objects[i], run.mapper, i.namespace)
    requires forall p | p in errors :: run.Excused(objects, p)
    ensures errors == []
  {
    hide RestoreRun.Excused, HasUnresolvable;
    forall p ensures p !in errors {
      NotExcused(run, objects, p);
    }
    if errors != [] {
      HasMember(errors);
    }
  }

  lemma HasMember(s: seq<string>)
    requires s != []
    ensures exists p :: p in s
  {
    assert s[0] in s;
  }

  /** What the first two phases of an orderly restore have created when neither failed. */
  lemma CreatedSoFar(crds: set<ObjInfo>, C: Manifests, N: set<ObjInfo>, mapper: RestMapper, crdPart: seq<string>,
                     clusterPart: seq<string>)
    requires WellLoaded(crds, C.Keys, N) && Elements(crdPart) == Paths(crds)
    requires PhaseExact(C, mapper, Paths(crds), [], clusterPart) && Orderly(C, mapper, Paths(crds))
    ensures Elements(crdPart + clusterPart) == Paths(crds) + Restorables(C, mapper, Paths(crds))
    ensures Paths(C.Keys) !! Paths(crds) && Paths(N) !! Elements(crdPart + clusterPart)
  {
    hide Paths, Elements, PhaseExact, Orderly, Waits, WellLoaded;
    WellLoadedGives(crds, C.Keys, N);
    PathsDisjoint(C.Keys, crds);
    PathsDisjoint(N, crds);
    PathsDisjoint(N, C.Keys);
    PhaseComplete(C, mapper, Paths(crds), clusterPart);
    ElementsConcat(crdPart, clusterPart);
    PhaseExactGives(C, mapper, Paths(crds), [], clusterPart);
  }

  function HeldKeys(held: map<string, Archived>): set<Key> {
    set p | p in held :: held[p].key
  }

  lemma LoadedKeys(c: Contents, held: map<string, Archived>, slot: Slot)
    requires HoldsExactly(c, held) && KeysPlaced(held) && slot != SkippedBuiltin
    ensures KeysOf(SlotMap(c, slot).Keys) <= HeldKeys(held)
  {
    hide HoldsExactly, KeysPlaced, SlotOf, InfoOf;
    forall i | i in SlotMap(c, slot) ensures KeyOf(i) in HeldKeys(held) {
      LoadedIdentity(c, held, slot, i);
    }
  }

  /** The outcome of RestoreAll over a loaded archive, as far as the theorems below need it. */
  ghost predicate Outcome(run: RestoreRun, c: Contents, view: View, start: Cluster, report: Report,
                          crdPart: seq<string>, clusterPart: seq<string>, namespacedPart: seq<string>,
                          ignoreErrors: bool)
    reads run
  {
    var C, N := Seen(c.clusterScoped, view), Seen(c.namespaced, view);
    var parts := run.PartsOf(report, crdPart, clusterPart, namespacedPart);
    && WellLoaded(c.crds.Keys, C.Keys, N.Keys)
    && CrdsMerged(Seen(c.crds, view), run.crds, run.merge, start, Elements(crdPart))
    && run.clusterScoped.Keys == C.Keys && run.namespaced.Keys == N.Keys
    && report.phases == (if !ignoreErrors && report.crdError.Some? then 1
                         else if !ignoreErrors && report.clusterErrors != [] then 2 else 3)
    && (report.phases < 3 ==> report.namespacedErrors == [] && namespacedPart == [])
    && (report.phases < 2 ==> report.clusterErrors == [] && clusterPart == [])
    && (report.crdError == None ==> Elements(crdPart) == Paths(c.crds.Keys))
    && (report.phases >= 2 ==>
          && PhaseOutcome(C, run.mapper, run.faults, Elements(crdPart), report.clusterErrors, clusterPart)
          && run.clusterScoped == GeneratedAll(C, run.mapper, Elements(crdPart)))
    && (report.phases == 3 ==>
          && PhaseOutcome(N, run.mapper, run.faults, Elements(crdPart + clusterPart), report.namespacedErrors,
                          namespacedPart)
          && run.namespaced == GeneratedAll(N, run.mapper, Elements(crdPart + clusterPart)))
    && (report.crdError.Some? ==> run.Excused(run.crds, report.crdError.value))
    && (forall p | p in report.clusterErrors :: run.Excused(run.clusterScoped, p))
    && (forall p | p in report.namespacedErrors :: run.Excused(run.namespaced, p))
    && Settled(Account(start, map[], {}), run.Balance(), parts, run.mapper, run.faults, AllKeys(parts))
  }

  predicate Clean(report: Report) {
    report.crdError == None && report.clusterErrors == [] && report.namespacedErrors == []
  }

  lemma MergedCrdsKeepRefs(before: Manifests, after: Manifests, merge: Merge, start: Cluster, done: set<string>)
    requires CrdsMerged(before, after, merge, start, done)
    ensures after.Keys == before.Keys && forall i | i in before :: after[i].ownerRefs == before[i].ownerRefs
  {
    forall i | i in before ensures after[i].ownerRefs == before[i].ownerRefs {
      assert after[i].(payload := "").ownerRefs == before[i].(payload := "").ownerRefs;
    }
  }

  lemma SameRefsResolve(before: Manifests, after: Manifests, mapper: RestMapper)
    requires after.Keys == before.Keys && forall i | i in before :: after[i].ownerRefs == before[i].ownerRefs
    requires forall i | i in before :: !HasUnresolvable(before[i], mapper, i.namespace)
    ensures forall i | i in after :: !HasUnresolvable(after[i], mapper, i.namespace)
  {
    hide CannotResolve;
    forall i | i in after ensures !HasUnresolvable(after[i], mapper, i.namespace) {
      assert RefsOf(after[i]) == RefsOf(before[i]);
      assert !HasUnresolvable(before[i], mapper, i.namespace);
    }
  }

  /** With every call served and every reference resolvable, an orderly restore has no errors. */
  lemma OrderlyIsClean(run: RestoreRun, c: Contents, view: View, start: Cluster, report: Report,
                       crdPart: seq<string>, clusterPart: seq<string>, namespacedPart: seq<string>, ignoreErrors: bool)
    requires Outcome(run, c, view, start, report, crdPart, clusterPart, namespacedPart, ignoreErrors)
    requires run.faults == map[] && OwnersArchived(c, view, run.mapper) && AllResolvable(c, view, run.mapper)
    ensures Clean(report)
  {
    hide PhaseOutcome, Settled, Orderly, WellLoaded, HasUnresolvable, Generated, RestoreRun.Excused, Paths, Elements;
    var C, N := Seen(c.clusterScoped, view), Seen(c.namespaced, view);
    MergedCrdsKeepRefs(Seen(c.crds, view), run.crds, run.merge, start, Elements(crdPart));
    SameRefsResolve(Seen(c.crds, view), run.crds, run.mapper);
    NoErrors(run, run.crds, Failure(report.crdError));
    assert report.phases >= 2;
    NoErrors(run, run.clusterScoped, report.clusterErrors);
    assert report.phases == 3;
    OutcomeIsExact(C, run.mapper, run.faults, Elements(crdPart), report.clusterErrors, clusterPart);
    CreatedSoFar(c.crds.Keys, C, N.Keys, run.mapper, crdPart, clusterPart);
    NoErrors(run, run.namespaced, report.namespacedErrors);
  }

  lemma OutcomeMatches(run: RestoreRun, c: Contents, view: View, start: Cluster, report: Report,
                       crdPart: seq<string>, clusterPart: seq<string>, namespacedPart: seq<string>, ignoreErrors: bool)
    requires Outcome(run, c, view, start, report, crdPart, clusterPart, namespacedPart, ignoreErrors)
    ensures Matches(c, view, run.merge, start, run.PartsOf(report, crdPart, clusterPart, namespacedPart))
  {
    hide PhaseOutcome, WellLoaded, Settled, GeneratedAll, RestoreRun.Excused, CrdsMerged, Elements, MatchesAt, Paths;
    var parts := run.PartsOf(report, crdPart, clusterPart, namespacedPart);
    var crds, C, N := Seen(c.crds, view), Seen(c.clusterScoped, view), Seen(c.namespaced, view);
    CrdsMergedKeys(crds, run.crds, run.merge, start, Elements(crdPart));
    ElementsNothing();
    forall slot, info | info in SlotMap(c, slot) && info.configPath in PartFor(parts, slot).tried
      ensures MatchesAt(view(SlotMap(c, slot)[info]), PartFor(parts, slot), run.merge, start, slot, info)
    {
      match slot
      case Crd => CrdsMatch(crds, run.crds, run.merge, start, parts.crds.done, parts.crds.tried, info);
      case ClusterScoped =>
        GeneratedMatch(C, run.mapper, Elements(crdPart), run.merge, start, parts.clusterScoped.done,
                       parts.clusterScoped.tried, slot, info);
      case Namespaced =>
        GeneratedMatch(N, run.mapper, Elements(crdPart + clusterPart), run.merge, start, parts.namespaced.done,
                       parts.namespaced.tried, slot, info);
    }
  }

  /** The phases of a restore without errors over an orderly archive have done all they do not skip. */
  lemma CleanPhases(run: RestoreRun, c: Contents, view: View, start: Cluster, report: Report,
                    crdPart: seq<string>, clusterPart: seq<string>, namespacedPart: seq<string>, ignoreErrors: bool)
    requires Outcome(run, c, view, start, report, crdPart, clusterPart, namespacedPart, ignoreErrors)
    requires Clean(report) && OwnersArchived(c, view, run.mapper)
    ensures Elements(crdPart) == Paths(c.crds.Keys)
    ensures var C := Seen(c.clusterScoped, view);
            forall i | i in C :: i.configPath in Elements(clusterPart) <==> !Skipped(i, C[i])
    ensures var N := Seen(c.namespaced, view);
            forall i | i in N :: i.configPath in Elements(namespacedPart) <==> !Skipped(i, N[i])
  {
    hide Orderly, WellLoaded, Settled, GeneratedAll, RestoreRun.Excused, CrdsMerged, Elements, Skipped, PhaseOutcome,
         PhaseExact, Paths, Seen;
    var C, N := Seen(c.clusterScoped, view), Seen(c.namespaced, view);
    OutcomeIsExact(C, run.mapper, run.faults, Elements(crdPart), report.clusterErrors, clusterPart);
    OutcomeIsExact(N, run.mapper, run.faults, Elements(crdPart + clusterPart), report.namespacedErrors, namespacedPart);
    CreatedSoFar(c.crds.Keys, C, N.Keys, run.mapper, crdPart, clusterPart);
    PhaseComplete(C, run.mapper, Elements(crdPart), clusterPart);
    PhaseComplete(N, run.mapper, Elements(crdPart + clusterPart), namespacedPart);
  }

  /** ... so it is complete. */
  lemma CleanIsComplete(run: RestoreRun, c: Contents, view: View, start: Cluster, report: Report,
                        crdPart: seq<string>, clusterPart: seq<string>, namespacedPart: seq<string>, ignoreErrors: bool)
    requires Outcome(run, c, view, start, report, crdPart, clusterPart, namespacedPart, ignoreErrors)
    requires Clean(report) && OwnersArchived(c, view, run.mapper)
    ensures var parts := run.PartsOf(report, crdPart, clusterPart, namespacedPart);
            Complete(c, view, parts) && CleanRun(parts)
  {
    hide Outcome, OwnersArchived, Elements, Skipped;
    ElementsNothing();
    CleanPhases(run, c, view, start, report, crdPart, clusterPart, namespacedPart, ignoreErrors);
    var parts := run.PartsOf(report, crdPart, clusterPart, namespacedPart);
    var C, N := Seen(c.clusterScoped, view), Seen(c.namespaced, view);
    forall slot, info | info in SlotMap(c, slot)
      ensures info.configPath in PartFor(parts, slot).done <==>
                (slot != Crd ==> !Skipped(info, view(SlotMap(c, slot)[info])))
    {
      match slot
      case Crd => assert info.configPath in Paths(c.crds.Keys);
      case ClusterScoped => assert info in C && C[info] == view(c.clusterScoped[info]);
      case Namespaced => assert info in N && N[info] == view(c.namespaced[info]);
    }
  }

  // ---- the theorems ----

  lemma RecordOf(a: Account, start: Cluster, parts: Archive, faults: map<string, Fault>, slot: Slot)
    requires OnRecord(a, start, parts.crds, faults) && OnRecord(a, start, parts.clusterScoped, faults)
    requires OnRecord(a, start, parts.namespaced, faults)
    ensures OnRecord(a, start, PartFor(parts, slot), faults)
  {
    hide RecordedAt;
  }

  lemma SettledGives(start: Account, a: Account, parts: Archive, mapper: RestMapper, faults: map<string, Fault>,
                     touched: set<Key>, slot: Slot)
    requires Settled(start, a, parts, mapper, faults, touched)
    ensures Intact(a, mapper) && Keeps(start.cluster, a.cluster, a.gone) && Frame(start, a, touched)
    ensures AccountsForLosses(a.gone, start.cluster, parts, faults)
    ensures OnRecord(a, start.cluster, PartFor(parts, slot), faults)
  {
    hide Intact, Keeps, Frame, OnRecord, AccountsForLosses;
    RecordOf(a, start.cluster, parts, faults, slot);
  }

  /** A complete run has brought back everything it should. */
  lemma CompleteIsBack(start: Account, a: Account, parts: Archive, c: Contents, view: View, merge: Merge,
                       mapper: RestMapper,
                       faults: map<string, Fault>, touched: set<Key>)
    requires Settled(start, a, parts, mapper, faults, touched) && Matches(c, view, merge, start.cluster, parts)
    requires Complete(c, view, parts) && parts.crds.done <= parts.crds.tried
    requires parts.clusterScoped.done <= parts.clusterScoped.tried && parts.namespaced.done <= parts.namespaced.tried
    ensures AllBack(a.cluster, c, view, merge, start.cluster, faults)
  {
    hide Settled, Effective, Skipped, Back, MatchesAt;
    forall slot, info | info in SlotMap(c, slot) && Wanted(slot, info, view(SlotMap(c, slot)[info]), faults)
      ensures Back(a.cluster, start.cluster, KeyOf(info),
                   Expected(merge, start.cluster, slot, info, view(SlotMap(c, slot)[info])))
    {
      SettledGives(start, a, parts, mapper, faults, touched, slot);
      assert MatchesAt(view(SlotMap(c, slot)[info]), PartFor(parts, slot), merge, start.cluster, slot, info);
      RecordedIsBack(a, start.cluster, PartFor(parts, slot), view(SlotMap(c, slot)[info]), merge, mapper, faults, slot,
                     info);
    }
  }

  lemma RecordedIsBack(a: Account, start: Cluster, part: Part, m: Manifest, merge: Merge, mapper: RestMapper,
                       faults: map<string, Fault>, slot: Slot, info: ObjInfo)
    requires Intact(a, mapper) && OnRecord(a, start, part, faults) && info in part.objects
             && info.configPath in part.done
    requires MatchesAt(m, part, merge, start, slot, info) && Effective(info, m, FaultOf(faults, info))
    ensures Back(a.cluster, start, KeyOf(info), Expected(merge, start, slot, info, m))
  {
    hide Effective, Survives, Renews, SameFate, Carried, Succeeds, FaultOf;
    var k, w, expected := KeyOf(info), part.objects[info], Expected(merge, start, slot, info, m);
    assert RecordedAt(a, start, info, w, faults);
    FateDecides(w, m, start, info, FaultOf(faults, info));
    ExpectedFate(merge, start, slot, info, m);
    FateDecides(expected, m, start, info, FaultOf(faults, info));
    if k in a.written {
      WrittenIsThere(a, mapper, k);
      if Survives(start, k, w) {
        RenewsTransitive(a.written[k], w, expected);
      }
    }
  }

  lemma WrittenIsThere(a: Account, mapper: RestMapper, k: Key)
    requires Intact(a, mapper) && k in a.written
    ensures k in a.cluster.objects && a.cluster.objects[k].manifest == a.written[k]
  {
    hide Tied;
    assert Carried(a, k, a.written[k], mapper);
  }

  lemma ExpectedFate(merge: Merge, start: Cluster, slot: Slot, info: ObjInfo, m: Manifest)
    ensures SameFate(Expected(merge, start, slot, info, m), m)
  {
  }

  /** In a complete and clean run the doomed objects are those a caller can foresee. */
  lemma DoomedIffForeseen(start: Cluster, parts: Archive, c: Contents, view: View, merge: Merge,
                          faults: map<string, Fault>,
                          k: Key)
    requires Matches(c, view, merge, start, parts) && Complete(c, view, parts)
    requires parts.crds.done <= parts.crds.tried
    requires parts.clusterScoped.done <= parts.clusterScoped.tried && parts.namespaced.done <= parts.namespaced.tried
    ensures DoomedIn(start, parts, faults, k) <==> DoomedWanted(start, c, view, faults, k)
  {
    hide Effective, Survives, Skipped, Renews, SameFate, FaultOf;
    forall slot, info | info in SlotMap(c, slot) && info.configPath in PartFor(parts, slot).done
      ensures var m, w := view(SlotMap(c, slot)[info]), PartFor(parts, slot).objects[info];
              && (Survives(start, KeyOf(info), w) <==> Survives(start, KeyOf(info), m))
              && (Effective(info, w, FaultOf(faults, info)) <==> Effective(info, m, FaultOf(faults, info)))
    {
      assert MatchesAt(view(SlotMap(c, slot)[info]), PartFor(parts, slot), merge, start, slot, info);
      FateDecides(PartFor(parts, slot).objects[info], view(SlotMap(c, slot)[info]), start, info, FaultOf(faults, info));
    }
    if DoomedIn(start, parts, faults, k) {
      var slot := DoomedSlot(start, parts, faults, k);
      var info :| info in PartFor(parts, slot).objects && KeyOf(info) == k
          && info.configPath in PartFor(parts, slot).done
          && Effective(info, PartFor(parts, slot).objects[info], FaultOf(faults, info))
          && !Survives(start, k, PartFor(parts, slot).objects[info]);
      assert info in SlotMap(c, slot);
    }
    if DoomedWanted(start, c, view, faults, k) {
      var slot, info :| info in SlotMap(c, slot) && KeyOf(info) == k
          && Wanted(slot, info, view(SlotMap(c, slot)[info]), faults)
          && !Survives(start, k, view(SlotMap(c, slot)[info]));
      assert info.configPath in PartFor(parts, slot).done;
      assert Doomed(start, PartFor(parts, slot), faults, k);
    }
  }

  lemma DoomedSlot(start: Cluster, parts: Archive, faults: map<string, Fault>, k: Key) returns (slot: Slot)
    requires DoomedIn(start, parts, faults, k)
    ensures Doomed(start, PartFor(parts, slot), faults, k)
  {
    hide Doomed;
    slot := if Doomed(start, parts.crds, faults, k) then Crd
            else if Doomed(start, parts.clusterScoped, faults, k) then ClusterScoped else Namespaced;
  }

  /** Owner-reference integrity of a complete and clean run, on the cluster it leaves. */
  lemma CompleteRefsExact(start: Account, a: Account, parts: Archive, c: Contents, view: View, merge: Merge,
                          mapper: RestMapper, faults: map<string, Fault>, touched: set<Key>)
    requires Settled(start, a, parts, mapper, faults, touched) && Matches(c, view, merge, start.cluster, parts)
    requires Complete(c, view, parts) && CleanRun(parts) && parts.crds.done <= parts.crds.tried
    requires parts.clusterScoped.done <= parts.clusterScoped.tried && parts.namespaced.done <= parts.namespaced.tried
    ensures AllRefsExact(a.cluster, start.cluster, c, view, mapper, faults)
  {
    hide Settled, Effective, Skipped, MatchesAt, CleanRun, Live, DoomedWanted, DoomedIn, Matches, Complete, OwnerOf;
    forall slot, info, ref | info in SlotMap(c, slot) && Wanted(slot, info, view(SlotMap(c, slot)[info]), faults)
        && KeyOf(info) in a.cluster.objects && ref in RefsOf(a.cluster.objects[KeyOf(info)].manifest)
      ensures RefExact(a.cluster, start.cluster, c, view, mapper, faults, info.namespace, ref)
    {
      if NamesOwner(ref) {
        WantedIsWritten(start, a, parts, c, view, merge, mapper, faults, touched, slot, info);
        ReferenceLiveIff(start, a, parts, mapper, faults, touched, KeyOf(info), ref);
        var owner := OwnerOf(ref, mapper, info.namespace);
        DoomedIffForeseen(start.cluster, parts, c, view, merge, faults, owner.value.key);
      }
    }
  }

  lemma WantedIsWritten(start: Account, a: Account, parts: Archive, c: Contents, view: View, merge: Merge,
                        mapper: RestMapper, faults: map<string, Fault>, touched: set<Key>, slot: Slot, info: ObjInfo)
    requires Settled(start, a, parts, mapper, faults, touched) && Matches(c, view, merge, start.cluster, parts)
    requires Complete(c, view, parts)
    requires info in SlotMap(c, slot) && Wanted(slot, info, view(SlotMap(c, slot)[info]), faults)
    requires KeyOf(info) in a.cluster.objects && PartFor(parts, slot).done <= PartFor(parts, slot).tried
    ensures KeyOf(info) in a.written && a.cluster.objects[KeyOf(info)].manifest == a.written[KeyOf(info)]
  {
    hide Settled, Effective, Skipped, Survives, Renews, SameFate, Carried, Succeeds, FaultOf;
    SettledGives(start, a, parts, mapper, faults, touched, slot);
    var part, m := PartFor(parts, slot), view(SlotMap(c, slot)[info]);
    assert MatchesAt(m, part, merge, start.cluster, slot, info);
    assert RecordedAt(a, start.cluster, info, part.objects[info], faults);
    FateDecides(part.objects[info], m, start.cluster, info, FaultOf(faults, info));
    assert KeyOf(info) !in a.gone;
    WrittenIsThere(a, mapper, KeyOf(info));
  }

  /** Whatever failed: the losses, and the references of everything the restore changed. */
  lemma LostIsArchived(start: Cluster, parts: Archive, c: Contents, view: View, merge: Merge,
                       faults: map<string, Fault>, k: Key)
    requires Matches(c, view, merge, start, parts) && LostIn(start, parts, faults, k)
    ensures DoomedArchived(start, c, view, k)
  {
    hide Effective, Survives, Renews, SameFate, FaultOf;
    var slot := if LostFrom(start, parts.crds, faults, k) then Crd
                else if LostFrom(start, parts.clusterScoped, faults, k) then ClusterScoped else Namespaced;
    assert LostFrom(start, PartFor(parts, slot), faults, k);
    var info :| info in PartFor(parts, slot).objects && KeyOf(info) == k
        && info.configPath in PartFor(parts, slot).tried
        && !Survives(start, k, PartFor(parts, slot).objects[info]);
    assert info in SlotMap(c, slot);
    assert MatchesAt(view(SlotMap(c, slot)[info]), PartFor(parts, slot), merge, start, slot, info);
    FateDecides(PartFor(parts, slot).objects[info], view(SlotMap(c, slot)[info]), start, info, FaultOf(faults, info));
  }

  lemma SettledLosesOnlyDoomed(start: Account, a: Account, parts: Archive, c: Contents, view: View, merge: Merge,
                               mapper: RestMapper, faults: map<string, Fault>, touched: set<Key>)
    requires Settled(start, a, parts, mapper, faults, touched) && Matches(c, view, merge, start.cluster, parts)
    ensures LosesOnlyDoomed(start.cluster, a.cluster, c, view)
  {
    hide Settled, Matches, LostIn, DoomedArchived, Intact, Frame, OnRecord;
    SettledGives(start, a, parts, mapper, faults, touched, Crd);
    forall k | k in a.gone ensures DoomedArchived(start.cluster, c, view, k) {
      LostIsArchived(start.cluster, parts, c, view, merge, faults, k);
    }
  }

  lemma SettledChangesSound(start: Account, a: Account, parts: Archive, c: Contents, view: View, merge: Merge,
                            mapper: RestMapper, faults: map<string, Fault>, touched: set<Key>, created: set<string>)
    requires start.written == map[] && start.gone == {}
    requires Settled(start, a, parts, mapper, faults, touched) && Matches(c, view, merge, start.cluster, parts)
    requires Anchored(a, OrderedKeys(c), mapper, created)
    ensures ChangesSound(a.cluster, start.cluster, c, view, mapper)
  {
    hide Settled, Matches, LostIn, DoomedArchived, Intact, OnRecord, OwnerOf, Live, Anchored, Eligible, Keeps;
    SettledGives(start, a, parts, mapper, faults, touched, Crd);
    forall k, ref | Changed(start.cluster, a.cluster, k) && ref in RefsOf(a.cluster.objects[k].manifest)
      ensures RefSound(a.cluster, start.cluster, c, view, mapper, k, ref)
    {
      ChangedIsWritten(start, a, mapper, touched, k);
      if NamesOwner(ref) && !Live(ref, a.cluster, mapper, k.namespace) {
        LiveUnlessOwnerGone(a, mapper, k, ref);
        LostIsArchived(start.cluster, parts, c, view, merge, faults, OwnerOf(ref, mapper, k.namespace).value.key);
        if k in OrderedKeys(c) {
          DanglingIsNotAwaited(a, OrderedKeys(c), mapper, created, k, ref);
        }
      }
    }
  }

  lemma ChangedIsWritten(start: Account, a: Account, mapper: RestMapper, touched: set<Key>, k: Key)
    requires Intact(a, mapper) && Frame(start, a, touched) && Changed(start.cluster, a.cluster, k)
    ensures k in a.written && a.cluster.objects[k].manifest == a.written[k]
  {
    hide Carried, Fresher;
    assert k !in a.gone;
    WrittenIsThere(a, mapper, k);
  }

  lemma DanglingIsNotAwaited(a: Account, keys: set<Key>, mapper: RestMapper, created: set<string>, k: Key,
                             ref: OwnerRef)
    requires Intact(a, mapper) && Anchored(a, keys, mapper, created) && k in keys && k in a.written
    requires ref in RefsOf(a.written[k]) && NamesOwner(ref) && !Live(ref, a.cluster, mapper, k.namespace)
    ensures Eligible(ref, mapper, k.namespace) == None
  {
    hide Intact, Anchored, Eligible, Live;
    if Eligible(ref, mapper, k.namespace).Some? {
      AwaitedOwnersStayLive(a, keys, mapper, created, k, ref);
    }
  }

  lemma LoadedIsFiledByKey(c: Contents, held: map<string, Archived>, slot: Slot)
    requires HoldsExactly(c, held) && KeysPlaced(held) && slot != SkippedBuiltin
    ensures FiledByKey(SlotMap(c, slot).Keys)
  {
    hide HoldsExactly, SlotOf, WriterPath, OwnerPath, PrunePath;
    forall i | i in SlotMap(c, slot) ensures i.configPath == OwnerPath(KeyOf(i)) {
      LoadedIdentity(c, held, slot, i);
      PathsAgree(KeyOf(i));
    }
  }

  /** The three phases over a loaded archive, on any cluster. */
  method RestorePhases(c: Contents, view: View, mapper: RestMapper, faults: map<string, Fault>, merge: Merge,
                       cluster: Cluster, ignoreErrors: bool, ghost held: map<string, Archived>)
    returns (failed: bool, restored: Cluster)
    requires HoldsExactly(c, held) && KeysPlaced(held)
    // whatever fails: only archived keys are touched, only doomed objects lost, and references stay sound
    ensures OnlyTouches(cluster, restored, HeldKeys(held)) && (Fresher(cluster) ==> Fresher(restored))
    ensures LosesOnlyDoomed(cluster, restored, c, view) && ChangesSound(restored, cluster, c, view, mapper)
    // nothing fails without a reason
    ensures faults == map[] && OwnersArchived(c, view, mapper) && AllResolvable(c, view, mapper) ==> !failed
    // and then everything wanted is back, its references exact
    ensures !failed && !ignoreErrors && OwnersArchived(c, view, mapper) ==>
              && AllBack(restored, c, view, merge, cluster, faults)
              && AllRefsExact(restored, cluster, c, view, mapper, faults)
  {
    hide HoldsExactly, KeysPlaced, WellLoaded, PhaseOutcome, OwnersFirst, GeneratedAll, AllBack, Settled, Fresher,
         AllResolvable, OwnersArchived, KeysOf, HeldKeys, CrdsMerged, Seen, Elements, Paths, RestoreRun.Excused,
         Anchored, FiledByKey, Matches, Complete, CleanRun, AllRefsExact, ChangesSound, LosesOnlyDoomed, OnlyTouches;
    LoadedIsWellLoaded(c, held);
    var crds, clusterScoped, namespaced := Seen(c.crds, view), Seen(c.clusterScoped, view), Seen(c.namespaced, view);
    var run := new RestoreRun(mapper, faults, merge, crds, clusterScoped, namespaced, cluster);
    ghost var start := run.Balance();
    var report;
    ghost var crdPart, clusterPart, namespacedPart;
    report, crdPart, clusterPart, namespacedPart := run.RestoreAll(ignoreErrors);
    failed := !ignoreErrors && (report.crdError.Some? || report.clusterErrors != [] || report.namespacedErrors != []);
    restored := run.cluster;
    ghost var a, parts := run.Balance(), run.PartsOf(report, crdPart, clusterPart, namespacedPart);
    CrdsMergedKeys(crds, run.crds, merge, cluster, Elements(crdPart));
    assert Outcome(run, c, view, cluster, report, crdPart, clusterPart, namespacedPart, ignoreErrors);
    OutcomeMatches(run, c, view, cluster, report, crdPart, clusterPart, namespacedPart, ignoreErrors);
    if faults == map[] && OwnersArchived(c, view, mapper) && AllResolvable(c, view, mapper) {
      OrderlyIsClean(run, c, view, cluster, report, crdPart, clusterPart, namespacedPart, ignoreErrors);
    }
    if !failed && !ignoreErrors && OwnersArchived(c, view, mapper) {
      CleanIsComplete(run, c, view, cluster, report, crdPart, clusterPart, namespacedPart, ignoreErrors);
      CompleteIsBack(start, a, parts, c, view, merge, mapper, faults, AllKeys(parts));
      CompleteRefsExact(start, a, parts, c, view, merge, mapper, faults, AllKeys(parts));
    }
    LoadedIsFiledByKey(c, held, ClusterScoped);
    LoadedIsFiledByKey(c, held, Namespaced);
    SettledLosesOnlyDoomed(start, a, parts, c, view, merge, mapper, faults, AllKeys(parts));
    SettledChangesSound(start, a, parts, c, view, merge, mapper, faults, AllKeys(parts), run.created);
    LoadedKeys(c, held, Crd);
    LoadedKeys(c, held, ClusterScoped);
    LoadedKeys(c, held, Namespaced);
    SettledTouches(start, a, parts, mapper, faults, HeldKeys(held));
  }

  lemma SettledTouches(start: Account, a: Account, parts: Archive, mapper: RestMapper, faults: map<string, Fault>,
                       keys: set<Key>)
    requires Settled(start, a, parts, mapper, faults, AllKeys(parts)) && AllKeys(parts) <= keys
    ensures OnlyTouches(start.cluster, a.cluster, keys) && (Fresher(start.cluster) ==> Fresher(a.cluster))
  {
    hide Intact, Keeps, OnRecord, AccountsForLosses, Fresher, AllKeys;
  }
}
