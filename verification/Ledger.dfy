/** What a restore run has put into the cluster, what it has lost, and what its phases keep. */
module Ledger {
  import opened Results
  import opened Kube
  import opened ArchivePath
  import opened OwnerRefs
  import opened DependencyGraph
  import opened RestoreResource

  /** The cluster, what the run has written and is still there, and the objects that vanished when the run
      restored them over a pending deletion. */
  datatype Account = Account(cluster: Cluster, written: map<Key, Manifest>, gone: set<Key>)

  function Entered(a: Account, info: ObjInfo, e: Effect): Account {
    var k := KeyOf(info);
    if e.written.None? then a.(cluster := e.cluster)
    else if k in e.cluster.objects then Account(e.cluster, a.written[k := e.written.value], a.gone)
    else Account(e.cluster, a.written - {k}, a.gone + {k})
  }

  // ---- owner references ----

  predicate OwnerGone(ref: OwnerRef, gone: set<Key>, mapper: RestMapper, ns: string) {
    OwnerOf(ref, mapper, ns).Some? && OwnerOf(ref, mapper, ns).value.key in gone
  }

  /** The reference names a live uid, or its owner is one of those that vanished. */
  predicate Tied(ref: OwnerRef, a: Account, mapper: RestMapper, ns: string) {
    Live(ref, a.cluster, mapper, ns) || OwnerGone(ref, a.gone, mapper, ns)
  }

  /** What was written is in the cluster as written, each owner reference tied. */
  ghost predicate Carried(a: Account, k: Key, m: Manifest, mapper: RestMapper) {
    && k in a.cluster.objects && a.cluster.objects[k].manifest == m
    && forall ref | ref in RefsOf(m) :: Tied(ref, a, mapper, k.namespace)
  }

  ghost predicate Intact(a: Account, mapper: RestMapper) {
    && a.gone !! a.cluster.objects.Keys
    && forall k | k in a.written :: Carried(a, k, a.written[k], mapper)
  }

  lemma IntactInitially(c: Cluster, mapper: RestMapper)
    ensures Intact(Account(c, map[], {}), mapper)
  {
  }

  lemma TiedStays(ref: OwnerRef, a: Account, b: Account, k: Key, mapper: RestMapper, ns: string)
    requires Tied(ref, a, mapper, ns) && OnlyTouches(a.cluster, b.cluster, {k}) && a.gone <= b.gone
    requires k in b.cluster.objects && k in a.cluster.objects ==> b.cluster.objects[k].uid == a.cluster.objects[k].uid
    requires k !in b.cluster.objects ==> k in b.gone
    ensures Tied(ref, b, mapper, ns)
  {
    hide OwnerOf;
  }

  /** Whatever is restored over whatever state: what was written before stays, and every reference stays tied. */
  lemma EnteredKeepsIntact(a: Account, mapper: RestMapper, fault: Option<Fault>, info: ObjInfo, m: Manifest)
    requires Intact(a, mapper) && KeyOf(info) !in a.gone
    ensures Intact(Entered(a, info, Restored(a.cluster, mapper, fault, info, m)), mapper)
  {
    hide Rewritten, Put, Tied, Removable;
    var k, e := KeyOf(info), Restored(a.cluster, mapper, fault, info, m);
    var b := Entered(a, info, e);
    if e.written.Some? {
      PutEffect(a.cluster, k, e.written.value);
      forall l | l in b.written ensures Carried(b, l, b.written[l], mapper) {
        forall ref | ref in RefsOf(b.written[l]) ensures Tied(ref, b, mapper, l.namespace) {
          if l == k {
            RewrittenIsTied(m, a, mapper, info.namespace, ref);
          } else {
            assert Carried(a, l, a.written[l], mapper);
          }
          TiedStays(ref, a, b, k, mapper, l.namespace);
        }
      }
    }
  }

  lemma RewrittenIsTied(m: Manifest, a: Account, mapper: RestMapper, ns: string, ref: OwnerRef)
    requires Rewritten(m, a.cluster, mapper, ns).Ok? && ref in RefsOf(Rewritten(m, a.cluster, mapper, ns).value)
    ensures Tied(ref, a, mapper, ns)
  {
    hide Rewritten, Live;
    RewrittenIsLive(m, a.cluster, mapper, ns);
  }

  /** Exactly which written references are live: those whose owner the run has not lost. */
  lemma LiveUnlessOwnerGone(a: Account, mapper: RestMapper, k: Key, ref: OwnerRef)
    requires Intact(a, mapper) && k in a.written && ref in RefsOf(a.written[k]) && NamesOwner(ref)
    ensures Live(ref, a.cluster, mapper, k.namespace) <==> !OwnerGone(ref, a.gone, mapper, k.namespace)
  {
    hide OwnerOf;
    assert Carried(a, k, a.written[k], mapper) && Tied(ref, a, mapper, k.namespace);
  }

  // ---- references the order waits for ----

  predicate Anchor(ref: OwnerRef, gone: set<Key>, mapper: RestMapper, ns: string, created: set<string>) {
    var owner := Eligible(ref, mapper, ns);
    NamesOwner(ref) && owner.Some? ==> OwnerPath(owner.value.key) in created && owner.value.key !in gone
  }

  /** The owners that the objects of `keys` had to wait for were restored before them, and are not lost. */
  ghost predicate Anchored(a: Account, keys: set<Key>, mapper: RestMapper, created: set<string>) {
    forall k, ref | k in keys && k in a.written && ref in RefsOf(a.written[k]) ::
      Anchor(ref, a.gone, mapper, k.namespace, created)
  }

  /** Objects stand under the path an owner reference would look them up by. */
  predicate FiledByKey(infos: set<ObjInfo>) {
    forall i | i in infos :: i.configPath == OwnerPath(KeyOf(i))
  }

  predicate OwnersCreated(m: Manifest, mapper: RestMapper, ns: string, created: set<string>) {
    forall ref | ref in RefsOf(m) && Eligible(ref, mapper, ns).Some? ::
      OwnerPath(Eligible(ref, mapper, ns).value.key) in created
  }

  lemma RewrittenAnchors(a: Account, mapper: RestMapper, m: Manifest, ns: string, created: set<string>, ref: OwnerRef)
    requires a.gone !! a.cluster.objects.Keys && OwnersCreated(m, mapper, ns, created)
    requires Rewritten(m, a.cluster, mapper, ns).Ok? && ref in RefsOf(Rewritten(m, a.cluster, mapper, ns).value)
    requires NamesOwner(ref)
    ensures Anchor(ref, a.gone, mapper, ns, created)
  {
    hide ResolveRefs, OwnerPath, RoleKind;
    RewrittenIsLive(m, a.cluster, mapper, ns);
    var refs := m.ownerRefs.value;
    var resolved := ResolveRefs(refs, a.cluster, mapper, ns).value;
    var i :| 0 <= i < |resolved| && resolved[i] == ref;
    assert ResolveRef(refs[i], a.cluster, mapper, ns) == Ok(ref);
    assert refs[i] in RefsOf(m) && refs[i].OwnerRef?;
    SameOwner(refs[i], ref, mapper, ns);
  }

  lemma SameOwner(a: OwnerRef, b: OwnerRef, mapper: RestMapper, ns: string)
    requires a.OwnerRef? && b.OwnerRef? && b == a.(uid := b.uid)
    ensures Eligible(a, mapper, ns) == Eligible(b, mapper, ns)
  {
    hide RoleKind;
  }

  /** Restoring one more object, all of whose owners are created, loses no owner that was waited for. */
  lemma EnteredKeepsAnchored(a: Account, keys: set<Key>, mapper: RestMapper, created: set<string>,
                             fault: Option<Fault>, info: ObjInfo, m: Manifest)
    requires Anchored(a, keys, mapper, created) && a.gone !! a.cluster.objects.Keys
    requires info.configPath !in created && info.configPath == OwnerPath(KeyOf(info))
    requires OwnersCreated(m, mapper, info.namespace, created)
    ensures Anchored(Entered(a, info, Restored(a.cluster, mapper, fault, info, m)), keys, mapper, created)
  {
    hide Rewritten, Put, OwnerPath, Eligible;
    var k, e := KeyOf(info), Restored(a.cluster, mapper, fault, info, m);
    var b := Entered(a, info, e);
    if e.written.Some? {
      forall l, ref | l in keys && l in b.written && ref in RefsOf(b.written[l])
        ensures Anchor(ref, b.gone, mapper, l.namespace, created)
      {
        if l != k {
          assert Anchor(ref, a.gone, mapper, l.namespace, created);
        } else if NamesOwner(ref) {
          RewrittenAnchors(a, mapper, m, info.namespace, created, ref);
        }
      }
    }
  }

  lemma AnchoredGrows(a: Account, keys: set<Key>, mapper: RestMapper, created: set<string>, more: set<string>)
    requires Anchored(a, keys, mapper, created) && created <= more
    ensures Anchored(a, keys, mapper, more)
  {
    hide Eligible, OwnerPath;
  }

  /** Whatever is being deleted: a reference the order waited for is never left dangling. */
  lemma AwaitedOwnersStayLive(a: Account, keys: set<Key>, mapper: RestMapper, created: set<string>, k: Key,
                              ref: OwnerRef)
    requires Intact(a, mapper) && Anchored(a, keys, mapper, created)
    requires k in keys && k in a.written && ref in RefsOf(a.written[k])
    requires NamesOwner(ref) && Eligible(ref, mapper, k.namespace).Some?
    ensures Live(ref, a.cluster, mapper, k.namespace)
  {
    hide OwnerPath, RoleKind, OwnerOf;
    assert Anchor(ref, a.gone, mapper, k.namespace, created);
    LiveUnlessOwnerGone(a, mapper, k, ref);
  }

  // ---- one phase ----

  /** A phase over `objects`, begun with the account `start`. */
  datatype Phase = Phase(start: Account, objects: Manifests, mapper: RestMapper, faults: map<string, Fault>)

  function FaultOf(faults: map<string, Fault>, info: ObjInfo): Option<Fault> {
    if info.configPath in faults then Some(faults[info.configPath]) else None
  }

  function KeysOf(infos: set<ObjInfo>): set<Key> {
    set i | i in infos :: KeyOf(i)
  }

  function KeysTried(objects: Manifests, tried: set<string>): set<Key> {
    set i | i in objects && i.configPath in tried :: KeyOf(i)
  }

  /** Every object of `c` is still there in `d`, under the same uid, unless the run lost it. */
  ghost predicate Keeps(c: Cluster, d: Cluster, gone: set<Key>) {
    forall k | k in c.objects && k !in gone :: k in d.objects && d.objects[k].uid == c.objects[k].uid
  }

  /** Between `a` and `b` nothing outside `keys` was touched. */
  ghost predicate Frame(a: Account, b: Account, keys: set<Key>) {
    && OnlyTouches(a.cluster, b.cluster, keys)
    && a.gone <= b.gone <= a.gone + keys
    && b.written.Keys <= a.written.Keys + keys
    && (forall k | k in a.written && k !in keys :: k in b.written && b.written[k] == a.written[k])
    && a.written.Keys <= b.written.Keys + b.gone && OnlyTouches(a.cluster, b.cluster, b.written.Keys + b.gone)
    && (Fresher(a.cluster) ==> Fresher(b.cluster))
  }

  lemma FrameInitially(a: Account)
    ensures Frame(a, a, {})
  {
  }

  lemma FrameTransitive(a: Account, b: Account, c: Account, k1: set<Key>, k2: set<Key>)
    requires Frame(a, b, k1) && Frame(b, c, k2)
    ensures Frame(a, c, k1 + k2)
  {
    hide Fresher;
  }

  lemma FrameMore(a: Account, b: Account, keys: set<Key>, more: set<Key>)
    requires Frame(a, b, keys) && keys <= more
    ensures Frame(a, b, more)
  {
    hide Fresher;
  }

  lemma EnteredFrame(a: Account, mapper: RestMapper, fault: Option<Fault>, info: ObjInfo, m: Manifest)
    ensures Frame(a, Entered(a, info, Restored(a.cluster, mapper, fault, info, m)), {KeyOf(info)})
  {
    hide Rewritten, Put;
    var e := Restored(a.cluster, mapper, fault, info, m);
    if e.written.Some? {
      PutEffect(a.cluster, KeyOf(info), e.written.value);
    }
  }

  /** An object that was restored and should be in the cluster was written, unchanged but for its owner
      references, if it survived the start of the phase; otherwise it is lost. */
  predicate RecordedAt(a: Account, start: Cluster, i: ObjInfo, m: Manifest, faults: map<string, Fault>) {
    && Succeeds(i, m, FaultOf(faults, i))
    && (Effective(i, m, FaultOf(faults, i)) ==>
          if Survives(start, KeyOf(i), m) then KeyOf(i) in a.written && Renews(a.written[KeyOf(i)], m)
          else KeyOf(i) in a.gone)
  }

  ghost predicate Recorded(a: Account, start: Cluster, objects: Manifests, faults: map<string, Fault>,
                           done: set<string>) {
    forall i | i in objects && i.configPath in done :: RecordedAt(a, start, i, objects[i], faults)
  }

  /** k was written over a pending deletion: its path was tried, and if it was restored it was meant to be there. */
  predicate LostAs(start: Cluster, objects: Manifests, faults: map<string, Fault>, done: set<string>,
                   tried: set<string>,
                   k: Key)
  {
    exists i | i in objects ::
      KeyOf(i) == k && i.configPath in tried && !Survives(start, k, objects[i])
      && (i.configPath in done ==> Effective(i, objects[i], FaultOf(faults, i)))
  }

  /** Every object lost between `before` and `after` is accounted for. */
  ghost predicate Explained(before: set<Key>, after: set<Key>, start: Cluster, objects: Manifests,
                            faults: map<string, Fault>, done: set<string>, tried: set<string>)
  {
    forall k | k in after && k !in before :: LostAs(start, objects, faults, done, tried, k)
  }

  /** What a phase keeps while the paths in `tried` have been handed to restoreResource, those in `done` with
      success. */
  ghost predicate Kept(ph: Phase, a: Account, done: set<string>, tried: set<string>) {
    && Intact(a, ph.mapper)
    && Keeps(ph.start.cluster, a.cluster, a.gone)
    && Frame(ph.start, a, KeysTried(ph.objects, tried))
    && Recorded(a, ph.start.cluster, ph.objects, ph.faults, done)
    && Explained(ph.start.gone, a.gone, ph.start.cluster, ph.objects, ph.faults, done, tried)
  }

  lemma KeptInitially(ph: Phase)
    requires Intact(ph.start, ph.mapper)
    ensures Kept(ph, ph.start, {}, {})
  {
    assert KeysTried(ph.objects, {}) == {};
    FrameInitially(ph.start);
  }

  lemma EnteredKeeps(c: Cluster, a: Account, mapper: RestMapper, fault: Option<Fault>, info: ObjInfo, m: Manifest)
    requires Keeps(c, a.cluster, a.gone)
    ensures var b := Entered(a, info, Restored(a.cluster, mapper, fault, info, m)); Keeps(c, b.cluster, b.gone)
  {
    hide Rewritten, Put;
    var e := Restored(a.cluster, mapper, fault, info, m);
    if e.written.Some? {
      PutEffect(a.cluster, KeyOf(info), e.written.value);
    }
  }

  /** The object just restored is on record, and lost only if it did not survive. */
  lemma EnteredRecords(ph: Phase, a: Account, done: set<string>, tried: set<string>, info: ObjInfo)
    requires info in ph.objects && info.configPath !in tried && done <= tried && Distinct(ph.objects.Keys)
    requires Recorded(a, ph.start.cluster, ph.objects, ph.faults, done)
    requires Explained(ph.start.gone, a.gone, ph.start.cluster, ph.objects, ph.faults, done, tried)
    requires Survives(a.cluster, KeyOf(info), ph.objects[info]) <==>
             Survives(ph.start.cluster, KeyOf(info), ph.objects[info])
    ensures var e := Restored(a.cluster, ph.mapper, FaultOf(ph.faults, info), info, ph.objects[info]);
            var b := Entered(a, info, e);
            var done' := if e.ok then done + {info.configPath} else done;
            && Recorded(b, ph.start.cluster, ph.objects, ph.faults, done')
            && Explained(ph.start.gone, b.gone, ph.start.cluster, ph.objects, ph.faults, done',
                         tried + {info.configPath})
  {
    hide Restored, Effective, Survives, Put, Renews, Succeeds, FaultOf;
    var m := ph.objects[info];
    var e := Restored(a.cluster, ph.mapper, FaultOf(ph.faults, info), info, m);
    RestoredOutcome(a.cluster, ph.mapper, FaultOf(ph.faults, info), info, m);
    WrittenIsThereIff(a.cluster, ph.mapper, FaultOf(ph.faults, info), info, m);
    var b := Entered(a, info, e);
    var done', tried' := if e.ok then done + {info.configPath} else done, tried + {info.configPath};
    forall i | i in ph.objects && i.configPath in done
      ensures RecordedAt(b, ph.start.cluster, i, ph.objects[i], ph.faults)
    {
      assert RecordedAt(a, ph.start.cluster, i, ph.objects[i], ph.faults);
      assert KeyOf(i) != KeyOf(info);
    }
    forall k | k in b.gone && k !in ph.start.gone
      ensures LostAs(ph.start.cluster, ph.objects, ph.faults, done', tried', k)
    {
      if k in a.gone {
        LostStays(ph.start.cluster, ph.objects, ph.faults, done, tried, info.configPath, k);
      } else {
        assert k == KeyOf(info);
      }
    }
  }

  lemma LostStays(start: Cluster, objects: Manifests, faults: map<string, Fault>, done: set<string>, tried: set<string>,
                  path: string, k: Key)
    requires LostAs(start, objects, faults, done, tried, k) && path !in tried
    ensures LostAs(start, objects, faults, done, tried + {path}, k)
    ensures LostAs(start, objects, faults, done + {path}, tried + {path}, k)
  {
    hide Effective, Survives, FaultOf;
  }

  lemma WrittenIsThereIff(c: Cluster, mapper: RestMapper, fault: Option<Fault>, info: ObjInfo, m: Manifest)
    ensures var e := Restored(c, mapper, fault, info, m);
            e.written.Some? ==> (KeyOf(info) in e.cluster.objects <==> Survives(c, KeyOf(info), m))
  {
    hide ResolveRefs, Put;
    var e := Restored(c, mapper, fault, info, m);
    if e.written.Some? {
      PutEffect(c, KeyOf(info), e.written.value);
    }
  }

  /** One more object keeps everything. */
  lemma KeptAfter(ph: Phase, a: Account, done: set<string>, tried: set<string>, info: ObjInfo)
    requires Kept(ph, a, done, tried) && done <= tried
    requires info in ph.objects && info.configPath !in tried && Distinct(ph.objects.Keys)
    requires ph.start.gone !! KeysOf(ph.objects.Keys)
    ensures var e := Restored(a.cluster, ph.mapper, FaultOf(ph.faults, info), info, ph.objects[info]);
            Kept(ph, Entered(a, info, e), if e.ok then done + {info.configPath} else done, tried + {info.configPath})
  {
    hide Restored, Intact, Keeps, Recorded, Explained, Entered, Fresher;
    var k, m, fault := KeyOf(info), ph.objects[info], FaultOf(ph.faults, info);
    NotTouchedYet(ph.objects, tried, info);
    EnteredKeepsIntact(a, ph.mapper, fault, info, m);
    EnteredKeeps(ph.start.cluster, a, ph.mapper, fault, info, m);
    EnteredFrame(a, ph.mapper, fault, info, m);
    var b := Entered(a, info, Restored(a.cluster, ph.mapper, fault, info, m));
    FrameTransitive(ph.start, a, b, KeysTried(ph.objects, tried), {k});
    assert KeysTried(ph.objects, tried) + {k} == KeysTried(ph.objects, tried + {info.configPath});
    EnteredRecords(ph, a, done, tried, info);
  }

  lemma NotTouchedYet(objects: Manifests, tried: set<string>, info: ObjInfo)
    requires info in objects && info.configPath !in tried && Distinct(objects.Keys)
    ensures KeyOf(info) !in KeysTried(objects, tried) && KeyOf(info) in KeysOf(objects.Keys)
    ensures KeysTried(objects, tried) + {KeyOf(info)} == KeysTried(objects, tried + {info.configPath})
  {
  }

  lemma KeptGives(ph: Phase, a: Account, done: set<string>, tried: set<string>)
    requires Kept(ph, a, done, tried)
    ensures Intact(a, ph.mapper) && Keeps(ph.start.cluster, a.cluster, a.gone)
    ensures Recorded(a, ph.start.cluster, ph.objects, ph.faults, done)
    ensures Explained(ph.start.gone, a.gone, ph.start.cluster, ph.objects, ph.faults, done, tried)
    ensures Frame(ph.start, a, KeysOf(ph.objects.Keys))
  {
    hide Frame, Intact, Keeps, Recorded, Explained;
    FrameMore(ph.start, a, KeysTried(ph.objects, tried), KeysOf(ph.objects.Keys));
  }

  // ---- from phase to phase ----

  lemma KeepsTransitive(c: Cluster, d: Cluster, e: Cluster, gone: set<Key>, more: set<Key>)
    requires Keeps(c, d, gone) && Keeps(d, e, more) && gone <= more
    ensures Keeps(c, e, more)
  {
  }

  /** A later phase over other objects leaves the record of an earlier one alone. */
  lemma RecordedStays(a: Account, b: Account, start: Cluster, objects: Manifests, faults: map<string, Fault>,
                      done: set<string>, keys: set<Key>)
    requires Recorded(a, start, objects, faults, done) && Frame(a, b, keys) && KeysOf(objects.Keys) !! keys
    ensures Recorded(b, start, objects, faults, done)
  {
    hide Effective, Survives, OnlyTouches, Fresher, Renews, Succeeds;
    forall i | i in objects && i.configPath in done ensures RecordedAt(b, start, i, objects[i], faults) {
      assert RecordedAt(a, start, i, objects[i], faults);
      assert KeyOf(i) in KeysOf(objects.Keys);
    }
  }

  /** What a phase says of its start holds of the start of the run, if earlier phases touched other objects only. */
  lemma RecordedSinceStart(a: Account, c0: Cluster, c1: Cluster, objects: Manifests, faults: map<string, Fault>,
                           done: set<string>, keys: set<Key>)
    requires Recorded(a, c1, objects, faults, done) && OnlyTouches(c0, c1, keys) && KeysOf(objects.Keys) !! keys
    ensures Recorded(a, c0, objects, faults, done)
  {
    hide Effective;
    forall i | i in objects && i.configPath in done ensures RecordedAt(a, c0, i, objects[i], faults) {
      assert RecordedAt(a, c1, i, objects[i], faults);
      assert KeyOf(i) in KeysOf(objects.Keys);
    }
  }

  lemma ExplainedSinceStart(before: set<Key>, after: set<Key>, c0: Cluster, c1: Cluster, objects: Manifests,
                            faults: map<string, Fault>, done: set<string>, tried: set<string>, keys: set<Key>)
    requires Explained(before, after, c1, objects, faults, done, tried)
    requires OnlyTouches(c0, c1, keys) && KeysOf(objects.Keys) !! keys
    ensures Explained(before, after, c0, objects, faults, done, tried)
  {
    hide Effective, FaultOf;
    forall k | k in after && k !in before ensures LostAs(c0, objects, faults, done, tried, k) {
      assert LostAs(c1, objects, faults, done, tried, k);
      var i :| i in objects && KeyOf(i) == k && i.configPath in tried && !Survives(c1, k, objects[i])
          && (i.configPath in done ==> Effective(i, objects[i], FaultOf(faults, i)));
      assert k in KeysOf(objects.Keys);
      assert !Survives(c0, k, objects[i]);
    }
  }

  lemma PathsSoFar(all: set<ObjInfo>, remaining: set<ObjInfo>, info: ObjInfo)
    requires info in remaining && remaining <= all && DistinctPaths(all)
    ensures info.configPath !in Paths(all - remaining) && info.configPath in Paths(all)
    ensures Paths(all - (remaining - {info})) == Paths(all - remaining) + {info.configPath}
    ensures Paths(all - remaining) <= Paths(all)
  {
    assert all - (remaining - {info}) == (all - remaining) + {info};
  }

  lemma NoPaths()
    ensures Paths({}) == {}
  {
  }

  // ---- custom resource definitions ----

  type Merge = (string, string) -> string

  /** A CRD as the restore applies it: its content is merged with that of the CRD the cluster has, if any. */
  function MergedCrd(merge: Merge, c: Cluster, info: ObjInfo, m: Manifest): Manifest {
    if KeyOf(info) in c.objects then m.(payload := merge(m.payload, c.objects[KeyOf(info)].manifest.payload)) else m
  }

  /** The CRDs in `done` have been merged with those of `c`, the archived content first; no CRD has changed in
      anything but content. */
  ghost predicate CrdsMerged(before: Manifests, after: Manifests, merge: Merge, c: Cluster, done: set<string>) {
    && after.Keys == before.Keys
    && forall i | i in before ::
      && after[i].(payload := "") == before[i].(payload := "")
      && (i.configPath in done ==>
        && (KeyOf(i) in c.objects ==>
          after[i].payload == merge(before[i].payload, c.objects[KeyOf(i)].manifest.payload))
        && (KeyOf(i) !in c.objects ==> after[i].payload == before[i].payload))
  }

  lemma CrdsMergedKeys(before: Manifests, after: Manifests, merge: Merge, c: Cluster, done: set<string>)
    requires CrdsMerged(before, after, merge, c, done)
    ensures after.Keys == before.Keys
  {
  }

  lemma CrdsMergedInitially(crds: Manifests, merge: Merge, c: Cluster)
    ensures CrdsMerged(crds, crds, merge, c, {})
  {
  }

  /** One more CRD, merged with the live one as it was before the phase. */
  lemma CrdsMergedAfter(before: Manifests, after: Manifests, merge: Merge, c0: Cluster, done: set<string>, c: Cluster,
                        info: ObjInfo,
                        touched: set<Key>)
    requires CrdsMerged(before, after, merge, c0, done) && Distinct(before.Keys)
    requires info in before && after[info] == before[info] && info.configPath !in done
    requires OnlyTouches(c0, c, touched) && KeyOf(info) !in touched
    ensures CrdsMerged(before, after[info := MergedCrd(merge, c, info, after[info])], merge, c0, done)
    ensures CrdsMerged(before, after[info := MergedCrd(merge, c, info, after[info])], merge, c0,
                       done + {info.configPath})
  {
  }

  /** Kept does not depend on the content of objects that are still to be restored. */
  lemma KeptForPending(ph: Phase, a: Account, done: set<string>, tried: set<string>, info: ObjInfo, m: Manifest)
    requires Kept(ph, a, done, tried) && done <= tried && info in ph.objects && info.configPath !in tried
    requires m.(payload := "") == ph.objects[info].(payload := "")
    ensures Kept(ph.(objects := ph.objects[info := m]), a, done, tried)
  {
    hide Intact, Keeps, Frame, RecordedAt;
    var ph' := ph.(objects := ph.objects[info := m]);
    assert KeysTried(ph'.objects, tried) == KeysTried(ph.objects, tried);
    forall k | k in a.gone && k !in ph.start.gone
      ensures LostAs(ph.start.cluster, ph'.objects, ph.faults, done, tried, k)
    {
      assert LostAs(ph.start.cluster, ph.objects, ph.faults, done, tried, k);
    }
  }

  lemma DistinctGives(infos: set<ObjInfo>)
    requires Distinct(infos)
    ensures DistinctPaths(infos)
  {
  }

  lemma KeptTouches(ph: Phase, a: Account, done: set<string>, tried: set<string>)
    requires Kept(ph, a, done, tried)
    ensures OnlyTouches(ph.start.cluster, a.cluster, KeysTried(ph.objects, tried))
  {
    hide Intact, Keeps, Recorded, Explained, OnlyTouches, KeysTried;
  }

  // ---- the order protects owners ----

  /** At the start of a phase: objects are filed by key, what `keys` holds so far is anchored, and each object of
      the phase waits for every owner it may wait for that is not created yet. */
  ghost predicate Anchoring(graph: map<ObjInfo, seq<string>>, objects: Manifests, start: Account, keys: set<Key>,
                            mapper: RestMapper, before: set<string>)
  {
    && FiledByKey(objects.Keys)
    && Anchored(start, keys, mapper, before)
    && forall i | i in graph && i in objects ::
      OwnersCreated(objects[i], mapper, i.namespace, before + set o | o in graph[i])
  }

  /** What a dependency-ordered phase keeps: `done` of the objects in `graph` are restored, owners first. */
  ghost predicate Held(graph: map<ObjInfo, seq<string>>, ph: Phase, keys: set<Key>, before: set<string>,
                       a: Account, done: set<string>, tried: set<string>)
  {
    && Kept(ph, a, done, tried)
    && (Anchoring(graph, ph.objects, ph.start, keys, ph.mapper, before) ==> Anchored(a, keys, ph.mapper, before + done))
  }

  lemma HeldInitially(graph: map<ObjInfo, seq<string>>, ph: Phase, keys: set<Key>, before: set<string>)
    requires Intact(ph.start, ph.mapper)
    ensures Held(graph, ph, keys, before, ph.start, {}, {})
  {
    hide Kept, Anchored, FiledByKey, OwnersCreated;
    KeptInitially(ph);
    assert before + {} == before;
  }

  lemma HeldAfter(graph: map<ObjInfo, seq<string>>, ph: Phase, keys: set<Key>, before: set<string>,
                  a: Account, done: set<string>, tried: set<string>, info: ObjInfo)
    requires Held(graph, ph, keys, before, a, done, tried) && done <= tried
    requires info in ph.objects && info.configPath !in tried && Distinct(ph.objects.Keys)
    requires ph.start.gone !! KeysOf(ph.objects.Keys)
    requires info in graph && info.configPath !in before && forall o | o in graph[info] :: o in done
    ensures var e := Restored(a.cluster, ph.mapper, FaultOf(ph.faults, info), info, ph.objects[info]);
            Held(graph, ph, keys, before, Entered(a, info, e), if e.ok then done + {info.configPath} else done,
                 tried + {info.configPath})
  {
    hide Kept, Anchored, Anchoring, Restored, Entered, KeysOf, Distinct, FaultOf;
    KeptAfter(ph, a, done, tried, info);
    KeptIsIntact(ph, a, done, tried);
    AnchorsBefore(graph, ph.objects, ph.start, keys, ph.mapper, before, a, FaultOf(ph.faults, info), info, done);
  }

  lemma HeldGives(graph: map<ObjInfo, seq<string>>, ph: Phase, keys: set<Key>, before: set<string>,
                  a: Account, done: set<string>, tried: set<string>)
    requires Held(graph, ph, keys, before, a, done, tried)
    ensures Kept(ph, a, done, tried)
    ensures Anchoring(graph, ph.objects, ph.start, keys, ph.mapper, before) ==>
              Anchored(a, keys, ph.mapper, before + done)
  {
  }

  /** Restoring an object whose owners are all done keeps the anchors. */
  lemma AnchorsBefore(graph: map<ObjInfo, seq<string>>, objects: Manifests, start: Account, keys: set<Key>,
                      mapper: RestMapper,
                      before: set<string>, a: Account, fault: Option<Fault>, info: ObjInfo, done: set<string>)
    requires info in graph && info in objects && forall o | o in graph[info] :: o in done
    requires info.configPath !in before + done && Intact(a, mapper)
    ensures var b := Entered(a, info, Restored(a.cluster, mapper, fault, info, objects[info]));
            Anchoring(graph, objects, start, keys, mapper, before) && Anchored(a, keys, mapper, before + done) ==>
              && Anchored(b, keys, mapper, before + done)
              && Anchored(b, keys, mapper, before + (done + {info.configPath}))
  {
    hide Anchored, Restored, Entered, OwnerPath, Eligible;
    if Anchoring(graph, objects, start, keys, mapper, before) && Anchored(a, keys, mapper, before + done) {
      var created, m := before + done, objects[info];
      assert OwnersCreated(m, mapper, info.namespace, before + set o | o in graph[info]);
      EnteredKeepsAnchored(a, keys, mapper, created, fault, info, m);
      AnchoredGrows(Entered(a, info, Restored(a.cluster, mapper, fault, info, m)), keys, mapper, created,
                    before + (done + {info.configPath}));
    }
  }

  lemma KeptIsIntact(ph: Phase, a: Account, done: set<string>, tried: set<string>)
    requires Kept(ph, a, done, tried)
    ensures Intact(a, ph.mapper)
  {
    hide Intact, Keeps, Recorded, Explained, OnlyTouches, KeysTried;
  }

  /** The objects of a phase wait for, or come after, every owner they may wait for. */
  lemma GraphAnchors(loaded: Manifests, mapper: RestMapper, before: set<string>)
    ensures forall i | i in Graph(loaded, mapper, before) ::
              OwnersCreated(GeneratedAll(loaded, mapper, before)[i], mapper, i.namespace,
                            before + set o | o in Graph(loaded, mapper, before)[i])
  {
    hide Eligible, OwnerPath, CountedOwners, Skipped, HasRejected;
    var graph := Graph(loaded, mapper, before);
    forall i, ref | i in graph && ref in RefsOf(GeneratedAll(loaded, mapper, before)[i])
        && Eligible(ref, mapper, i.namespace).Some?
      ensures OwnerPath(Eligible(ref, mapper, i.namespace).value.key) in before + set o | o in graph[i]
    {
      var refs := RefsOf(loaded[i]);
      assert ref in refs;
      var r :| 0 <= r < |refs| && refs[r] == ref;
      EligibleOwnersAccounted(refs, mapper, i.namespace, before, r);
    }
  }

  lemma AnchoringHolds(loaded: Manifests, start: Account, keys: set<Key>, mapper: RestMapper, before: set<string>)
    ensures FiledByKey(loaded.Keys) && Anchored(start, keys, mapper, before) ==>
              Anchoring(Graph(loaded, mapper, before), GeneratedAll(loaded, mapper, before), start, keys, mapper,
                        before)
  {
    hide Graph, OwnersCreated, FiledByKey, Anchored, Generated;
    GraphAnchors(loaded, mapper, before);
    assert GeneratedAll(loaded, mapper, before).Keys == loaded.Keys;
  }

  // ---- the three phases together ----

  lemma KeysApart(crds: set<ObjInfo>, clusterScoped: set<ObjInfo>, namespaced: set<ObjInfo>)
    requires crds !! clusterScoped && crds !! namespaced && clusterScoped !! namespaced
    requires Distinct(crds + clusterScoped + namespaced)
    ensures KeysOf(crds) !! KeysOf(clusterScoped) && KeysOf(crds) !! KeysOf(namespaced)
            && KeysOf(clusterScoped) !! KeysOf(namespaced)
  {
  }

  lemma FrameGives(a: Account, b: Account, keys: set<Key>)
    requires Frame(a, b, keys)
    ensures OnlyTouches(a.cluster, b.cluster, keys) && a.gone <= b.gone <= a.gone + keys
            && b.written.Keys <= a.written.Keys + keys
  {
    hide OnlyTouches, Fresher;
  }

  /** One phase's objects as it writes them, the paths it restored, and all it tried. */
  datatype Part = Part(objects: Manifests, done: set<string>, tried: set<string>)

  datatype Archive = Archive(crds: Part, clusterScoped: Part, namespaced: Part)

  function Keys(part: Part): set<Key> {
    KeysOf(part.objects.Keys)
  }

  function AllKeys(arc: Archive): set<Key> {
    Keys(arc.crds) + Keys(arc.clusterScoped) + Keys(arc.namespaced)
  }

  predicate LostFrom(start: Cluster, part: Part, faults: map<string, Fault>, k: Key) {
    LostAs(start, part.objects, faults, part.done, part.tried, k)
  }

  predicate LostIn(start: Cluster, arc: Archive, faults: map<string, Fault>, k: Key) {
    || LostFrom(start, arc.crds, faults, k)
    || LostFrom(start, arc.clusterScoped, faults, k)
    || LostFrom(start, arc.namespaced, faults, k)
  }

  ghost predicate AccountsForLosses(gone: set<Key>, start: Cluster, arc: Archive, faults: map<string, Fault>) {
    forall k | k in gone :: LostIn(start, arc, faults, k)
  }

  ghost predicate OnRecord(a: Account, start: Cluster, part: Part, faults: map<string, Fault>) {
    Recorded(a, start, part.objects, faults, part.done)
  }

  /** A run that began on `start` has got as far as `arc` says: what it restored is on record, what it lost is
      accounted for, and nothing but `touched` was touched. */
  ghost predicate Settled(start: Account, a: Account, arc: Archive, mapper: RestMapper, faults: map<string, Fault>,
                          touched: set<Key>)
  {
    && Intact(a, mapper) && Keeps(start.cluster, a.cluster, a.gone) && Frame(start, a, touched)
    && AccountsForLosses(a.gone, start.cluster, arc, faults)
    && OnRecord(a, start.cluster, arc.crds, faults)
    && OnRecord(a, start.cluster, arc.clusterScoped, faults)
    && OnRecord(a, start.cluster, arc.namespaced, faults)
  }

  lemma SettledIsIntact(start: Account, a: Account, arc: Archive, mapper: RestMapper, faults: map<string, Fault>,
                        touched: set<Key>)
    requires Settled(start, a, arc, mapper, faults, touched)
    ensures Intact(a, mapper)
  {
    hide Intact, Frame, Keeps, AccountsForLosses, OnRecord;
  }

  lemma SettledMore(start: Account, a: Account, arc: Archive, mapper: RestMapper, faults: map<string, Fault>)
    ensures Settled(start, a, arc, mapper, faults, Keys(arc.crds)) ==>
              Settled(start, a, arc, mapper, faults, AllKeys(arc))
    ensures Settled(start, a, arc, mapper, faults, Keys(arc.crds) + Keys(arc.clusterScoped)) ==>
              Settled(start, a, arc, mapper, faults, AllKeys(arc))
  {
    hide Frame, Intact, Keeps, OnRecord, AccountsForLosses, Keys;
    var kD, kC := Keys(arc.crds), Keys(arc.clusterScoped);
    if Settled(start, a, arc, mapper, faults, kD) {
      FrameMore(start, a, kD, AllKeys(arc));
    }
    if Settled(start, a, arc, mapper, faults, kD + kC) {
      FrameMore(start, a, kD + kC, AllKeys(arc));
    }
  }

  lemma NothingOnRecord(a: Account, start: Cluster, part: Part, faults: map<string, Fault>)
    requires part.done == {}
    ensures OnRecord(a, start, part, faults)
  {
  }

  lemma AfterCrds(start: Account, a: Account, arc: Archive, mapper: RestMapper, faults: map<string, Fault>)
    requires start.written == map[] && start.gone == {}
    requires Kept(Phase(start, arc.crds.objects, mapper, faults), a, arc.crds.done, arc.crds.tried)
    requires arc.clusterScoped.done == arc.namespaced.done == {}
    ensures Settled(start, a, arc, mapper, faults, Keys(arc.crds))
    ensures a.gone <= Keys(arc.crds) && a.written.Keys <= Keys(arc.crds)
  {
    hide Frame, Intact, Keeps, Recorded, KeysOf, LostAs;
    KeptGives(Phase(start, arc.crds.objects, mapper, faults), a, arc.crds.done, arc.crds.tried);
    FrameGives(start, a, Keys(arc.crds));
    NothingOnRecord(a, start.cluster, arc.clusterScoped, faults);
    NothingOnRecord(a, start.cluster, arc.namespaced, faults);
  }

  /** A phase over other objects than the earlier ones, seen from the start of the run. */
  lemma PhaseJoins(a0: Account, a1: Account, a2: Account, part: Part, mapper: RestMapper, faults: map<string, Fault>,
                   earlier: set<Key>)
    requires Frame(a0, a1, earlier) && Keeps(a0.cluster, a1.cluster, a1.gone) && earlier !! Keys(part)
    requires Kept(Phase(a1, part.objects, mapper, faults), a2, part.done, part.tried)
    ensures Intact(a2, mapper) && Frame(a1, a2, Keys(part))
    ensures Frame(a0, a2, earlier + Keys(part)) && Keeps(a0.cluster, a2.cluster, a2.gone)
    ensures OnRecord(a2, a0.cluster, part, faults)
    ensures Explained(a1.gone, a2.gone, a0.cluster, part.objects, faults, part.done, part.tried)
  {
    hide Frame, Keeps, Recorded, Explained, KeysOf, OnlyTouches, Intact;
    KeptGives(Phase(a1, part.objects, mapper, faults), a2, part.done, part.tried);
    FrameGives(a0, a1, earlier);
    FrameGives(a1, a2, Keys(part));
    FrameTransitive(a0, a1, a2, earlier, Keys(part));
    KeepsTransitive(a0.cluster, a1.cluster, a2.cluster, a1.gone, a2.gone);
    RecordedSinceStart(a2, a0.cluster, a1.cluster, part.objects, faults, part.done, earlier);
    ExplainedSinceStart(a1.gone, a2.gone, a0.cluster, a1.cluster, part.objects, faults, part.done, part.tried, earlier);
  }

  lemma OnRecordStays(a: Account, b: Account, start: Cluster, part: Part, faults: map<string, Fault>, keys: set<Key>)
    requires OnRecord(a, start, part, faults) && Frame(a, b, keys) && Keys(part) !! keys
    ensures OnRecord(b, start, part, faults)
  {
    hide Frame, Recorded, KeysOf;
    RecordedStays(a, b, start, part.objects, faults, part.done, keys);
  }

  lemma AfterClusterScoped(start: Account, a1: Account, a2: Account, before: Archive, arc: Archive, mapper: RestMapper,
                           faults: map<string, Fault>)
    requires arc == before.(clusterScoped := arc.clusterScoped) && before.clusterScoped.tried == {}
    requires Keys(arc.crds) !! Keys(arc.clusterScoped) && arc.namespaced.done == {}
    requires start.written == map[] && start.gone == {}
    requires Settled(start, a1, before, mapper, faults, Keys(arc.crds))
    requires Kept(Phase(a1, arc.clusterScoped.objects, mapper, faults), a2, arc.clusterScoped.done,
                  arc.clusterScoped.tried)
    ensures Settled(start, a2, arc, mapper, faults, Keys(arc.crds) + Keys(arc.clusterScoped))
    ensures a2.gone <= Keys(arc.crds) + Keys(arc.clusterScoped)
  {
    hide Frame, Intact, Keeps, OnRecord, Keys, Explained, AccountsForLosses, Kept;
    PhaseJoins(start, a1, a2, arc.clusterScoped, mapper, faults, Keys(arc.crds));
    FrameGives(start, a2, Keys(arc.crds) + Keys(arc.clusterScoped));
    OnRecordStays(a1, a2, start.cluster, arc.crds, faults, Keys(arc.clusterScoped));
    NothingOnRecord(a2, start.cluster, arc.namespaced, faults);
    LossesOfClusterScoped(a1.gone, a2.gone, start.cluster, before, arc, faults);
  }

  lemma LossesOfClusterScoped(lost: set<Key>, gone: set<Key>, start: Cluster, before: Archive, arc: Archive,
                              faults: map<string, Fault>)
    requires arc == before.(clusterScoped := arc.clusterScoped) && before.clusterScoped.tried == {}
    requires AccountsForLosses(lost, start, before, faults)
    requires var part := arc.clusterScoped; Explained(lost, gone, start, part.objects, faults, part.done, part.tried)
    ensures AccountsForLosses(gone, start, arc, faults)
  {
    hide Survives, Effective;
    forall k | k in gone ensures LostIn(start, arc, faults, k) {
      assert k in lost ==> LostIn(start, before, faults, k);
    }
  }

  lemma AfterNamespaced(start: Account, a2: Account, a3: Account, before: Archive, arc: Archive, mapper: RestMapper,
                        faults: map<string, Fault>)
    requires arc == before.(namespaced := arc.namespaced) && before.namespaced.tried == {}
    requires Keys(arc.crds) !! Keys(arc.namespaced) && Keys(arc.clusterScoped) !! Keys(arc.namespaced)
    requires start.written == map[] && start.gone == {}
    requires Settled(start, a2, before, mapper, faults, Keys(arc.crds) + Keys(arc.clusterScoped))
    requires Kept(Phase(a2, arc.namespaced.objects, mapper, faults), a3, arc.namespaced.done, arc.namespaced.tried)
    ensures Settled(start, a3, arc, mapper, faults, AllKeys(arc))
  {
    hide Frame, Intact, Keeps, OnRecord, Keys, Explained, AccountsForLosses, Kept;
    PhaseJoins(start, a2, a3, arc.namespaced, mapper, faults, Keys(arc.crds) + Keys(arc.clusterScoped));
    OnRecordStays(a2, a3, start.cluster, arc.crds, faults, Keys(arc.namespaced));
    OnRecordStays(a2, a3, start.cluster, arc.clusterScoped, faults, Keys(arc.namespaced));
    LossesOfNamespaced(a2.gone, a3.gone, start.cluster, before, arc, faults);
  }

  lemma LossesOfNamespaced(lost: set<Key>, gone: set<Key>, start: Cluster, before: Archive, arc: Archive,
                           faults: map<string, Fault>)
    requires arc == before.(namespaced := arc.namespaced) && before.namespaced.tried == {}
    requires AccountsForLosses(lost, start, before, faults)
    requires var part := arc.namespaced; Explained(lost, gone, start, part.objects, faults, part.done, part.tried)
    ensures AccountsForLosses(gone, start, arc, faults)
  {
    hide Survives, Effective;
    forall k | k in gone ensures LostIn(start, arc, faults, k) {
      assert k in lost ==> LostIn(start, before, faults, k);
    }
  }

  lemma AnchoredVacuously(a: Account, keys: set<Key>, mapper: RestMapper, created: set<string>)
    requires a.written.Keys !! keys
    ensures Anchored(a, keys, mapper, created)
  {
  }


  // ---- what a caller can foresee ----

  /** The object was restored and meant to be there, but does not survive. */
  predicate Doomed(start: Cluster, part: Part, faults: map<string, Fault>, k: Key) {
    exists i | i in part.objects ::
      KeyOf(i) == k && i.configPath in part.done && Effective(i, part.objects[i], FaultOf(faults, i))
      && !Survives(start, k, part.objects[i])
  }

  predicate DoomedIn(start: Cluster, arc: Archive, faults: map<string, Fault>, k: Key) {
    Doomed(start, arc.crds, faults, k) || Doomed(start, arc.clusterScoped, faults, k)
    || Doomed(start, arc.namespaced, faults, k)
  }

  /** Nothing failed: whatever was tried was restored. */
  predicate CleanRun(arc: Archive) {
    && arc.crds.tried <= arc.crds.done
    && arc.clusterScoped.tried <= arc.clusterScoped.done
    && arc.namespaced.tried <= arc.namespaced.done
  }

  lemma CleanPartLoses(a: Account, start: Cluster, part: Part, faults: map<string, Fault>, k: Key)
    requires OnRecord(a, start, part, faults) && part.tried <= part.done
    ensures LostFrom(start, part, faults, k) ==> Doomed(start, part, faults, k)
    ensures Doomed(start, part, faults, k) ==> k in a.gone
  {
    hide Survives, Effective, Renews, Succeeds;
    if Doomed(start, part, faults, k) {
      var i :| i in part.objects && KeyOf(i) == k && i.configPath in part.done
          && Effective(i, part.objects[i], FaultOf(faults, i)) && !Survives(start, k, part.objects[i]);
      assert RecordedAt(a, start, i, part.objects[i], faults);
    }
  }

  /** What a clean run loses follows from where it began: exactly the restored objects that were being deleted and
      whose archived copy has no finalizers. */
  lemma LostIffDoomed(start: Account, a: Account, arc: Archive, mapper: RestMapper, faults: map<string, Fault>,
                      touched: set<Key>, k: Key)
    requires Settled(start, a, arc, mapper, faults, touched) && CleanRun(arc)
    ensures k in a.gone <==> DoomedIn(start.cluster, arc, faults, k)
  {
    hide Intact, Keeps, Frame, OnRecord, LostFrom, Doomed;
    CleanPartLoses(a, start.cluster, arc.crds, faults, k);
    CleanPartLoses(a, start.cluster, arc.clusterScoped, faults, k);
    CleanPartLoses(a, start.cluster, arc.namespaced, faults, k);
  }

  /** Owner-reference integrity over a whole run: a reference the run has written names a live uid if and only if
      its owner is not an archived object doomed from the start. */
  lemma ReferenceLiveIff(start: Account, a: Account, arc: Archive, mapper: RestMapper, faults: map<string, Fault>,
                         touched: set<Key>, k: Key, ref: OwnerRef)
    requires Settled(start, a, arc, mapper, faults, touched) && CleanRun(arc)
    requires k in a.written && ref in RefsOf(a.written[k]) && NamesOwner(ref)
    ensures var owner := OwnerOf(ref, mapper, k.namespace);
            && owner.Some?
            && (Live(ref, a.cluster, mapper, k.namespace) <==> !DoomedIn(start.cluster, arc, faults, owner.value.key))
  {
    hide Intact, Settled, CleanRun, OwnerOf, DoomedIn;
    SettledIsIntact(start, a, arc, mapper, faults, touched);
    LiveUnlessOwnerGone(a, mapper, k, ref);
    var owner := OwnerOf(ref, mapper, k.namespace);
    if owner.Some? {
      LostIffDoomed(start, a, arc, mapper, faults, touched, owner.value.key);
    }
  }

  // ---- what order is worth ----

  /** An object and then the owner one of its references names, whatever else either refers to: the reference is
      left dangling exactly if the owner does not survive. */
  lemma DependentFirstDanglesIff(a: Account, mapper: RestMapper, fault1: Option<Fault>, fault2: Option<Fault>,
                                 dependent: ObjInfo, m: Manifest, owner: ObjInfo, o: Manifest, ref: OwnerRef)
    requires KeyOf(dependent) != KeyOf(owner) && Survives(a.cluster, KeyOf(dependent), m)
    requires var first := Restored(a.cluster, mapper, fault1, dependent, m);
             && first.written.Some? && ref in RefsOf(first.written.value) && NamesOwner(ref)
             && OwnerOf(ref, mapper, dependent.namespace).Some?
             && OwnerOf(ref, mapper, dependent.namespace).value.key == KeyOf(owner)
             && Restored(first.cluster, mapper, fault2, owner, o).written.Some?
    ensures var first := Restored(a.cluster, mapper, fault1, dependent, m);
            var second := Restored(first.cluster, mapper, fault2, owner, o);
            var end := Entered(Entered(a, dependent, first), owner, second);
            && KeyOf(dependent) in end.written && end.written[KeyOf(dependent)] == first.written.value
            && (Live(ref, end.cluster, mapper, dependent.namespace) <==> Survives(a.cluster, KeyOf(owner), o))
  {
    hide OwnerOf, Put, Rewritten, Removable;
    var first := Restored(a.cluster, mapper, fault1, dependent, m);
    var second := Restored(first.cluster, mapper, fault2, owner, o);
    RestoredOutcome(a.cluster, mapper, fault1, dependent, m);
    RestoredOutcome(first.cluster, mapper, fault2, owner, o);
    RewrittenIsLive(m, a.cluster, mapper, dependent.namespace);
    SameRemovable(first.written.value, m);
    SameRemovable(second.written.value, o);
    PutEffect(a.cluster, KeyOf(dependent), first.written.value);
    PutEffect(first.cluster, KeyOf(owner), second.written.value);
  }

  lemma SameRemovable(w: Manifest, m: Manifest)
    requires SameExceptRefs(w, m)
    ensures Removable(w) <==> Removable(m)
  {
    assert w.(ownerRefs := None).finalizers == m.(ownerRefs := None).finalizers;
    assert w.(ownerRefs := None).specFinalizers == m.(ownerRefs := None).specFinalizers;
  }

  /** Owner first, as the ordered phases do it: an object is written without references exactly if it has none or
      one of them names an owner that is not there, as one that did not survive is not. */
  lemma ReferencesDroppedIff(c: Cluster, mapper: RestMapper, fault: Option<Fault>, info: ObjInfo, m: Manifest)
    requires Restored(c, mapper, fault, info, m).written.Some?
    ensures Restored(c, mapper, fault, info, m).written.value.ownerRefs == None <==>
              m.ownerRefs == None || exists ref | ref in RefsOf(m) :: !Passes(ref, c, mapper, info.namespace)
  {
    hide Passes, ResolveRefs, Put;
    ResolvesIff(RefsOf(m), c, mapper, info.namespace);
  }
}
