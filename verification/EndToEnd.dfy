/** A whole restore: load the archive, restore it owners first, delete what is not in it. */
module EndToEnd {
  import opened Results
  import opened GoStrings
  import opened Kube
  import opened ArchivePath
  import opened Base64
  import opened OwnerRefs
  import opened RestoreResource
  import opened Ledger
  import opened Selection
  import opened ArchiveCodec
  import opened ArchiveLoader
  import opened ArchiveRestore
  import opened Prune
  import opened WorkerPool
  import opened LiveServer

  // ---- prune ----

  /** No live object that the selectors match as a listable type lacks a file in the archive, except for
      those held by spec.finalizers. */
  ghost predicate NothingExtra(api: Api, sels: seq<Selector>, labels: Labels, d: Cluster, paths: set<string>) {
    forall k, g | AlwaysListable(api, g) && Matched(api, sels, labels, d, k, g) :: Accounted(d, k, paths)
  }

  predicate Accounted(d: Cluster, k: Key, paths: set<string>) {
    WriterPath(k) in paths || (k in d.objects && d.objects[k].manifest.specFinalizers)
  }

  /** No object with a file in the archive changes. */
  ghost predicate ArchivedUntouched(c: Cluster, d: Cluster, paths: set<string>) {
    forall k | k in c.objects && WriterPath(k) in paths :: k in d.objects && d.objects[k] == c.objects[k]
  }

  lemma SubsetIsSane(c: Cluster, d: Cluster, scope: GVR -> bool)
    requires Sane(c, scope) && d.objects.Keys <= c.objects.Keys
    ensures Sane(d, scope)
  {
    hide KeyPlaced;
  }

  lemma PruneOutcome(server: Server, labels: Labels, scope: GVR -> bool, sels: seq<Selector>, gathered: Gathered,
                     order: seq<GVResource>, paths: set<string>, c: Cluster, d: Cluster)
    requires Faithful(server, labels, scope) && Sane(c, scope)
    requires GatherAll(server(c), sels) == Some(gathered) && Iterates(order, gathered.Keys)
    requires Untouched(Targets(gathered, order, paths), c, d)
    requires forall k | k in Targets(gathered, order, paths) && k in d.objects :: d.objects[k].manifest.specFinalizers
    ensures NothingExtra(server(d), sels, labels, d, paths) && ArchivedUntouched(c, d, paths)
  {
    hide Sane, Reflects, Honest, GatherAll, Matched, Targets, WriterPath, GatheredAs, ItemsWellPlaced, AlwaysListable;
    GatherAllLive(server(c), c, labels, scope, sels);
    GatheredIsWellPlaced(c, labels, scope, gathered);
    SubsetIsSane(c, d, scope);
    forall k | k in c.objects && WriterPath(k) in paths ensures k in d.objects && d.objects[k] == c.objects[k] {
      PruneIsExact(gathered, order, paths, k);
    }
    forall k, g | AlwaysListable(server(d), g) && Matched(server(d), sels, labels, d, k, g)
      ensures Accounted(d, k, paths)
    {
      MatchedIsLive(server(d), sels, labels, d, k, g);
      PruneIsExact(gathered, order, paths, k);
      if k !in Targets(gathered, order, paths) {
        MatchedStays(server(c), server(d), sels, labels, scope, c, d, k, g);
        ListableStays(server(c), server(d), g);
        MatchedIsGathered(server(c), sels, labels, c, k, g);
      }
    }
  }

  lemma MatchedIsLive(api: Api, sels: seq<Selector>, labels: Labels, c: Cluster, k: Key, g: GVResource)
    requires Matched(api, sels, labels, c, k, g)
    ensures k in c.objects
  {
  }

  lemma ListableStays(a: Api, b: Api, g: GVResource)
    requires SameRules(a, b) && AlwaysListable(b, g)
    ensures AlwaysListable(a, g)
  {
  }

  /** Pruning meets no obstacle: gathering succeeds, no object is gathered twice, and the second schedule serves
      every call and runs every worker to its end, however the targets are queued. */
  ghost predicate Smooth(api: Api, c: Contents, cluster: Cluster, first: seq<Action>, second: seq<Action>) {
    var gathered := GatherAll(api, c.selectors);
    && gathered.Some? && GatheredOnce(gathered.value) && AllServed(second)
    && forall order | Iterates(order, gathered.value.Keys) ::
      AllFinished(WorkerPool.Prune(Targets(gathered.value, order, c.paths), cluster, first, second))
  }

  /** prune after a restore. `first` and `second` are any schedules of the two worker pools. */
  method PruneArchive(c: Contents, server: Server, cluster: Cluster, first: seq<Action>, second: seq<Action>,
                      ghost labels: Labels, ghost scope: GVR -> bool)
    returns (failed: bool, pruned: Cluster)
    requires Faithful(server, labels, scope) && Sane(cluster, scope) && Fresher(cluster)
    ensures pruned.objects.Keys <= cluster.objects.Keys
    ensures ArchivedUntouched(cluster, pruned, c.paths)
    ensures !failed ==> NothingExtra(server(pruned), c.selectors, labels, pruned, c.paths)
    ensures Smooth(server(cluster), c, cluster, first, second) ==> !failed
  {
    hide Sane, Reflects, GatherAll, Targets, WriterPath, Fresher, Run, NothingExtra, Iterates, ReturnedNil,
         GatheredOnce, AllServed, AllFinished;
    var handler := new ResourceHandler();
    var ok := handler.GatherResources(server(cluster), c.selectors);
    if !ok {
      return true, cluster;
    }
    var gathered := handler.gvResourceToObjects;
    ghost var order;
    var targets;
    targets, order := MarkForDeletion(gathered, c.paths);
    var pool := WorkerPool.Prune(targets, cluster, first, second);
    PruneRemovesTargets(targets, cluster, first, second);
    failed, pruned := !ReturnedNil(pool), pool.cluster;
    ArchivedIsSpared(server, labels, scope, c.selectors, gathered, order, c.paths, cluster, pruned);
    if Smooth(server(cluster), c, cluster, first, second) {
      DisjointSelectorsSucceed(gathered, order, c.paths, cluster, first, second);
    }
    if !failed {
      PruneOutcome(server, labels, scope, c.selectors, gathered, order, c.paths, cluster, pruned);
    }
  }

  /** Whether or not the passes succeed, they only touch targets. */
  lemma ArchivedIsSpared(server: Server, labels: Labels, scope: GVR -> bool, sels: seq<Selector>, gathered: Gathered,
                         order: seq<GVResource>, paths: set<string>, c: Cluster, d: Cluster)
    requires Faithful(server, labels, scope) && Sane(c, scope)
    requires GatherAll(server(c), sels) == Some(gathered) && Iterates(order, gathered.Keys)
    requires Untouched(Targets(gathered, order, paths), c, d)
    ensures ArchivedUntouched(c, d, paths)
  {
    hide Sane, Reflects, Honest, GatherAll, Targets, WriterPath, GatheredAs, ItemsWellPlaced;
    GatherAllLive(server(c), c, labels, scope, sels);
    GatheredIsWellPlaced(c, labels, scope, gathered);
    forall k | k in c.objects && WriterPath(k) in paths ensures k in d.objects && d.objects[k] == c.objects[k] {
      PruneIsExact(gathered, order, paths, k);
    }
  }

  // ---- the whole ----

  ghost predicate HeldPlaced(held: map<string, Archived>, scope: GVR -> bool) {
    forall p | p in held :: p == WriterPath(held[p].key) && KeyPlaced(scope, held[p].key)
  }

  lemma RestoredIsSane(c: Cluster, d: Cluster, held: map<string, Archived>, scope: GVR -> bool)
    requires Sane(c, scope) && OnlyTouches(c, d, HeldKeys(held)) && HeldPlaced(held, scope)
    ensures Sane(d, scope)
  {
    hide WriterPath, KeyPlaced;
  }

  datatype Verdict = Completed | LoadFailed | RestoreFailed | PruneFailed

  /** OnRestoreChange from loading to pruning, without ignoring errors, on the tarball of a backup, while nobody
      else writes. */
  method OnRestoreChange(config: Config, entries: seq<Entry>, view: View, mapper: RestMapper,
                         faults: map<string, Fault>, merge: Merge,
                         server: Server, cluster: Cluster, first: seq<Action>, second: seq<Action>,
                         ghost backup: Config, ghost held: map<string, Archived>, ghost files: map<string, Bytes>,
                         ghost filters: Bytes,
                         ghost labels: Labels, ghost scope: GVR -> bool)
    returns (verdict: Verdict, final: Cluster, ghost c: Contents, ghost restored: Cluster)
    requires Sound(backup, config, held, files) && TarOf(entries, files, filters)
    requires HeldPlaced(held, scope) && Sane(cluster, scope) && Fresher(cluster)
    requires Faithful(server, labels, scope)
    requires config.filtersParse(filters)
    requires forall p | p in files && Contains(p, "filters.json") :: config.filtersParse(files[p])
    // the archive loads, and what is loaded is what was archived
    ensures verdict != LoadFailed && LoadAll(config, entries) == Ok(c) && HoldsExactly(c, held)
    ensures OneFiltersFile(files) ==> c.selectors == config.mergeFilters(filters, [])
    // if owners are archived and acyclic and no call fails, the restore phases succeed
    ensures faults == map[] && OwnersArchived(c, view, mapper) && AllResolvable(c, view, mapper) ==>
              verdict != RestoreFailed
    // and the run completes if, further, pruning the restored cluster meets no obstacle
    ensures faults == map[] && OwnersArchived(c, view, mapper) && AllResolvable(c, view, mapper) ==>
              Smooth(server(restored), c, restored, first, second) ==> verdict == Completed
    // when pruning starts only doomed objects are lost, and what the restore changed names live owners but for those;
    // once it has succeeded, exactly so
    ensures LosesOnlyDoomed(cluster, restored, c, view) && ChangesSound(restored, cluster, c, view, mapper)
    ensures verdict != RestoreFailed && OwnersArchived(c, view, mapper) ==>
              AllRefsExact(restored, cluster, c, view, mapper, faults)
    // a completed run has brought back every archived object it should, unless the object was being deleted and
    // the archived copy has no finalizers
    ensures verdict == Completed && OwnersArchived(c, view, mapper) ==> AllBack(final, c, view, merge, cluster, faults)
    // and nothing the loaded selectors match is left that was not archived; nor, if no object is stored under a name
    // that is taken for the ResourceSet's, anything that the ResourceSet of the backup matches
    ensures verdict == Completed ==> NothingExtra(server(final), c.selectors, labels, final, c.paths)
    ensures verdict == Completed && OneFiltersFile(files) ==>
              NothingExtra(server(final), config.mergeFilters(filters, []), labels, final, c.paths)
  {
    hide Sound, TarOf, HoldsExactly, Sane, Faithful, Fresher, LoadAll, OwnersArchived, AllResolvable, AllBack,
         NothingExtra, OnlyTouches, AllRefsExact, ChangesSound, LosesOnlyDoomed, ArchivedUntouched, Smooth, HeldPlaced,
         KeysPlaced, SoundFile, Contains, OneFiltersFile;
    ArchiveRoundTrip(backup, config, held, files, filters, entries);
    final := cluster;
    var fromBackup := new ObjectsFromBackup();
    var err := fromBackup.LoadFromTarGzip(config, entries);
    var loaded := Contents(fromBackup.crdInfoToData, fromBackup.clusterscopedResourceInfoToData,
                           fromBackup.namespacedResourceInfoToData, fromBackup.resourcesFromBackup,
                           fromBackup.backupResourceSet);
    c := loaded;
    HeldPlacedGives(held, scope);
    var failed, cluster1;
    failed, cluster1 := RestorePhases(loaded, view, mapper, faults, merge, cluster, false, held);
    final, restored := cluster1, cluster1;
    if failed {
      return RestoreFailed, final, c, restored;
    }
    RestoredIsSane(cluster, restored, held, scope);
    failed, final := PruneArchive(loaded, server, cluster1, first, second, labels, scope);
    if failed {
      return PruneFailed, final, c, restored;
    }
    if OwnersArchived(c, view, mapper) {
      BackStaysBack(restored, final, c, view, merge, cluster, faults, held);
    }
    verdict := Completed;
  }

  lemma HeldPlacedGives(held: map<string, Archived>, scope: GVR -> bool)
    requires HeldPlaced(held, scope)
    ensures KeysPlaced(held)
  {
    hide WriterPath;
  }

  lemma BackStaysBack(c: Cluster, d: Cluster, contents: Contents, view: View, merge: Merge, start: Cluster,
                      faults: map<string, Fault>, held: map<string, Archived>)
    requires AllBack(c, contents, view, merge, start, faults) && ArchivedUntouched(c, d, contents.paths)
    requires d.objects.Keys <= c.objects.Keys
    requires HoldsExactly(contents, held) && KeysPlaced(held)
    ensures AllBack(d, contents, view, merge, start, faults)
  {
    hide HoldsExactly, KeysPlaced, WriterPath, Wanted, SlotOf, Expected;
    forall slot, info | info in SlotMap(contents, slot)
        && Wanted(slot, info, view(SlotMap(contents, slot)[info]), faults)
      ensures Back(d, start, KeyOf(info), Expected(merge, start, slot, info, view(SlotMap(contents, slot)[info])))
    {
      LoadedIdentity(contents, held, slot, info);
      assert Back(c, start, KeyOf(info), Expected(merge, start, slot, info, view(SlotMap(contents, slot)[info])));
      assert WriterPath(KeyOf(info)) == info.configPath;
    }
  }
}
