/** prune: which gathered objects are deleted after a restore. */
module Prune {
  import opened Kube
  import opened ArchivePath
  import opened Selection
  import opened ArchiveCodec
  import opened ArchiveLoader
  import opened WorkerPool

  /** The object a gathered item stands for. */
  function TargetOf(g: GVResource, item: Item): Key {
    Key(GVROf(g), item.namespace, item.name)
  }

  /** The key under which prune looks an item up in the archive. */
  function LookupPath(g: GVResource, item: Item): string {
    PrunePath(Key(GVROf(g), if g.namespaced then item.namespace else "", item.name))
  }

  /** The targets among one type's objects, in the order they were gathered. */
  function Marked(g: GVResource, items: seq<Item>, paths: set<string>): seq<Key> {
    if items == [] then []
    else
      var n := |items| - 1;
      if LookupPath(g, items[n]) in paths then Marked(g, items[..n], paths)
      else Marked(g, items[..n], paths) + [TargetOf(g, items[n])]
  }

  /** ... and type by type. */
  function Targets(gathered: Gathered, order: seq<GVResource>, paths: set<string>): seq<Key>
    requires forall g | g in order :: g in gathered
  {
    if order == [] then []
    else
      var n := |order| - 1;
      Targets(gathered, order[..n], paths) + Marked(order[n], gathered[order[n]], paths)
  }

  /** `order` is one way for Go to iterate over the types. */
  ghost predicate Iterates(order: seq<GVResource>, types: set<GVResource>) {
    && (forall g :: g in order <==> g in types)
    && forall i, j | 0 <= i < j < |order| :: order[i] != order[j]
  }

  method MarkForDeletion(gathered: Gathered, resourcesFromBackup: set<string>)
    returns (resourcesToDelete: seq<Key>, ghost order: seq<GVResource>)
    ensures Iterates(order, gathered.Keys)
    ensures resourcesToDelete == Targets(gathered, order, resourcesFromBackup)
    ensures forall k :: k in resourcesToDelete <==>
              exists g, item :: Unaccounted(gathered, resourcesFromBackup, g, item) && k == TargetOf(g, item)
  {
    hide LookupPath;
    resourcesToDelete, order := [], [];
    var remaining := gathered.Keys;
    while remaining != {}
      invariant remaining <= gathered.Keys && Iterates(order, gathered.Keys - remaining)
      invariant resourcesToDelete == Targets(gathered, order, resourcesFromBackup)
      decreases remaining
    {
      var g :| g in remaining;
      remaining := remaining - {g};
      ghost var before := resourcesToDelete;
      var items := gathered[g];
      for i := 0 to |items|
        invariant resourcesToDelete == before + Marked(g, items[..i], resourcesFromBackup)
      {
        assert items[..i + 1][..i] == items[..i];
        if LookupPath(g, items[i]) !in resourcesFromBackup {
          resourcesToDelete := resourcesToDelete + [TargetOf(g, items[i])];
        }
      }
      assert items[..|items|] == items;
      assert (order + [g])[..|order|] == order;
      order := order + [g];
    }
    forall k {
      TargetsMembers(gathered, order, resourcesFromBackup, k);
    }
  }

  lemma {:induction false} MarkedMembers(g: GVResource, items: seq<Item>, paths: set<string>, k: Key)
    ensures k in Marked(g, items, paths) <==>
            exists item | item in items :: k == TargetOf(g, item) && LookupPath(g, item) !in paths
  {
    hide LookupPath, TargetOf;
    if items != [] {
      var n := |items| - 1;
      MarkedMembers(g, items[..n], paths, k);
      assert items == items[..n] + [items[n]];
    }
  }

  /** k is an object that was gathered and has no file in the loaded archive. */
  predicate Unaccounted(gathered: Gathered, paths: set<string>, g: GVResource, item: Item) {
    g in gathered && item in gathered[g] && LookupPath(g, item) !in paths
  }

  lemma {:induction false} TargetsMembers(gathered: Gathered, order: seq<GVResource>, paths: set<string>, k: Key)
    requires forall g | g in order :: g in gathered
    ensures k in Targets(gathered, order, paths) <==>
            exists g, item | g in order :: Unaccounted(gathered, paths, g, item) && k == TargetOf(g, item)
  {
    hide LookupPath, TargetOf, Marked;
    if order != [] {
      var n := |order| - 1;
      TargetsMembers(gathered, order[..n], paths, k);
      MarkedMembers(order[n], gathered[order[n]], paths, k);
      assert order == order[..n] + [order[n]];
    }
  }

  /** The API server's rules for a gathered item. */
  predicate ItemWellPlaced(g: GVResource, item: Item) {
    WellFormed(TargetOf(g, item)) && (g.namespaced <==> item.namespace != "")
  }

  ghost predicate ItemsWellPlaced(gathered: Gathered) {
    forall g, item | g in gathered && item in gathered[g] :: ItemWellPlaced(g, item)
  }

  predicate GatheredAs(gathered: Gathered, k: Key) {
    exists g, item | g in gathered :: item in gathered[g] && k == TargetOf(g, item)
  }

  lemma LookupIsWriterPath(g: GVResource, item: Item)
    requires ItemWellPlaced(g, item)
    ensures LookupPath(g, item) == WriterPath(TargetOf(g, item))
  {
    PathsAgree(TargetOf(g, item));
  }

  /** Prune is exact: an object is a target if and only if it was gathered and the path its writer would use
      is not among the loaded ones. */
  lemma PruneIsExact(gathered: Gathered, order: seq<GVResource>, paths: set<string>, k: Key)
    requires Iterates(order, gathered.Keys) && ItemsWellPlaced(gathered)
    ensures k in Targets(gathered, order, paths) <==> GatheredAs(gathered, k) && WriterPath(k) !in paths
  {
    hide LookupPath, TargetOf, Targets, WriterPath, ItemWellPlaced;
    TargetsMembers(gathered, order, paths, k);
    forall g, item | g in gathered && item in gathered[g] ensures LookupPath(g, item) == WriterPath(TargetOf(g, item)) {
      assert ItemWellPlaced(g, item);
      LookupIsWriterPath(g, item);
    }
    if GatheredAs(gathered, k) && WriterPath(k) !in paths {
      var g, item :| g in gathered && item in gathered[g] && k == TargetOf(g, item);
      assert Unaccounted(gathered, paths, g, item);
    }
  }

  /** Against the archive a backup wrote: an archived object that was gathered is deleted exactly when its
      path contains "filters"; builtin roles, though never restored, are safe. */
  lemma ArchivedIsDeletedIff(gathered: Gathered, order: seq<GVResource>, c: Contents, held: map<string, Archived>,
                             p: string)
    requires Iterates(order, gathered.Keys) && ItemsWellPlaced(gathered)
    requires HoldsExactly(c, held) && p in held && p == WriterPath(held[p].key)
    ensures held[p].key in Targets(gathered, order, c.paths) <==> GatheredAs(gathered, held[p].key) && IsFilters(p)
  {
    hide WriterPath, IsFilters, GatheredAs, Targets, In;
    PruneIsExact(gathered, order, c.paths, held[p].key);
  }

  /** No object was gathered twice, neither by one type nor by two. */
  ghost predicate GatheredOnce(gathered: Gathered) {
    && (forall g, i, j | g in gathered && 0 <= i < j < |gathered[g]| ::
      TargetOf(g, gathered[g][i]) != TargetOf(g, gathered[g][j]))
    && (forall g, h, item, other | g in gathered && h in gathered && g != h && item in gathered[g]
        && other in gathered[h] ::
          TargetOf(g, item) != TargetOf(h, other))
  }

  lemma {:induction false} MarkedDistinct(g: GVResource, items: seq<Item>, paths: set<string>)
    requires forall i, j | 0 <= i < j < |items| :: TargetOf(g, items[i]) != TargetOf(g, items[j])
    ensures DistinctTargets(Marked(g, items, paths))
  {
    hide LookupPath, TargetOf;
    if items != [] {
      var n := |items| - 1;
      MarkedDistinct(g, items[..n], paths);
      MarkedMembers(g, items[..n], paths, TargetOf(g, items[n]));
      assert forall i | 0 <= i < n :: items[..n][i] == items[i];
      assert TargetOf(g, items[n]) !in Marked(g, items[..n], paths);
    }
  }

  lemma {:induction false} TargetsDistinctUpTo(gathered: Gathered, order: seq<GVResource>, paths: set<string>)
    requires GatheredOnce(gathered) && forall g | g in order :: g in gathered
    requires forall i, j | 0 <= i < j < |order| :: order[i] != order[j]
    ensures DistinctTargets(Targets(gathered, order, paths))
  {
    hide LookupPath, TargetOf, Marked;
    if order != [] {
      var n := |order| - 1;
      var init, last := Targets(gathered, order[..n], paths), Marked(order[n], gathered[order[n]], paths);
      TargetsDistinctUpTo(gathered, order[..n], paths);
      MarkedDistinct(order[n], gathered[order[n]], paths);
      forall k | k in last ensures k !in init {
        MarkedMembers(order[n], gathered[order[n]], paths, k);
        TargetsMembers(gathered, order[..n], paths, k);
      }
      DistinctConcat(init, last);
    }
  }

  lemma DistinctConcat(a: seq<Key>, b: seq<Key>)
    requires DistinctTargets(a) && DistinctTargets(b) && forall k | k in b :: k !in a
    ensures DistinctTargets(a + b)
  {
    forall i, j | 0 <= i < j < |a + b| ensures (a + b)[i] != (a + b)[j] {
      if i < |a| <= j {
        assert (a + b)[i] in a && (a + b)[j] in b;
      }
    }
  }

  lemma DistinctNotNamedTwice(targets: seq<Key>, c: Cluster)
    requires DistinctTargets(targets)
    ensures !NamedTwice(targets, c)
  {
  }

  /** When selectors do not overlap and every call is served, the second pass returns nil. */
  lemma DisjointSelectorsSucceed(gathered: Gathered, order: seq<GVResource>, paths: set<string>, c: Cluster,
                                 first: seq<Action>, second: seq<Action>)
    requires Fresher(c) && Iterates(order, gathered.Keys) && GatheredOnce(gathered)
    requires AllServed(second) && AllFinished(WorkerPool.Prune(Targets(gathered, order, paths), c, first, second))
    ensures ReturnedNil(WorkerPool.Prune(Targets(gathered, order, paths), c, first, second))
  {
    hide Run, Fresher, Targets, GatheredOnce, NamedTwice;
    var targets := Targets(gathered, order, paths);
    TargetsDistinctUpTo(gathered, order, paths);
    NilPassSettles(targets, false, c, first);
    var between := Run(Fresh(targets, false, c), first).cluster;
    DistinctNotNamedTwice(targets, between);
    ServedPassHasNoErrors(targets, true, between, second);
  }

  /** ... and exactly the unaccounted objects without spec.finalizers are gone. */
  lemma DisjointSelectorsPrune(gathered: Gathered, order: seq<GVResource>, paths: set<string>, c: Cluster,
                               first: seq<Action>, second: seq<Action>)
    requires Fresher(c) && Iterates(order, gathered.Keys) && GatheredOnce(gathered) && ItemsWellPlaced(gathered)
    requires AllServed(second) && AllFinished(WorkerPool.Prune(Targets(gathered, order, paths), c, first, second))
    ensures var d := WorkerPool.Prune(Targets(gathered, order, paths), c, first, second).cluster;
            && Untouched(Targets(gathered, order, paths), c, d)
            && forall k | GatheredAs(gathered, k) && WriterPath(k) !in paths && k in d.objects ::
                 d.objects[k].manifest.specFinalizers
  {
    hide Run, Fresher, GatheredAs, ItemsWellPlaced, Targets, WriterPath, GatheredOnce, ReturnedNil;
    var targets := Targets(gathered, order, paths);
    DisjointSelectorsSucceed(gathered, order, paths, c, first, second);
    PruneRemovesTargets(targets, c, first, second);
    forall k | GatheredAs(gathered, k) && WriterPath(k) !in paths ensures k in targets {
      PruneIsExact(gathered, order, paths, k);
    }
  }
}
