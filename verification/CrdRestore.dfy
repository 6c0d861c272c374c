/** What the CRD phase writes, read as versions: a restore never asks the server to forget a stored version. */
module CrdRestore {
  import opened Kube
  import opened ArchivePath
  import opened DependencyGraph
  import opened Ledger
  import opened CrdMerge
  import opened RestoreResource
  import opened ArchiveLoader
  import opened ArchiveRestore

  /** `merge` is mergeVersionsFromLiveCRD on contents whose spec.versions `read` shows. */
  ghost predicate MergesVersions(merge: Merge, read: string -> Versions) {
    forall archived, live :: read(merge(archived, live)) == Merged(read(archived), read(live))
  }

  /** Of a CRD the phase has written, whatever came before or after: the versions are the archived ones, unchanged and
      in front, and those the cluster had, and the server accepts them whatever versions objects are stored under. */
  lemma WrittenCrdIsAccepted(before: Manifests, after: Manifests, merge: Merge, c: Cluster, done: set<string>,
                             read: string -> Versions, i: ObjInfo, stored: set<string>)
    requires CrdsMerged(before, after, merge, c, done) && MergesVersions(merge, read)
    requires i in before && i.configPath in done && KeyOf(i) in c.objects && ValidSpec(read(before[i].payload))
    requires LiveValid(LiveCrd(read(c.objects[KeyOf(i)].manifest.payload), stored))
    ensures var archived, live := read(before[i].payload), read(c.objects[KeyOf(i)].manifest.payload);
            var written := read(after[i].payload);
            && Accepts(LiveCrd(live, stored), written)
            && archived <= written && CrdMerge.Names(written) == CrdMerge.Names(archived) + CrdMerge.Names(live)
  {
    hide ValidSpec, Merged, CrdMerge.Names;
    MergedIsValid(read(before[i].payload), read(c.objects[KeyOf(i)].manifest.payload));
  }

  /** The CRDs a complete restore has brought back hold the archived content, merged with that of the CRD the cluster
      had at the start. */
  lemma BackCrdIsMerged(d: Cluster, c: Contents, view: View, merge: Merge, start: Cluster,
                        faults: map<string, Fault>, info: ObjInfo)
    requires AllBack(d, c, view, merge, start, faults)
    requires info in c.crds && Wanted(Slot.Crd, info, view(c.crds[info]), faults) && KeyOf(info) in d.objects
    ensures KeyOf(info) in start.objects ==>
              d.objects[KeyOf(info)].manifest.payload ==
              merge(view(c.crds[info]).payload, start.objects[KeyOf(info)].manifest.payload)
    ensures KeyOf(info) !in start.objects ==>
              d.objects[KeyOf(info)].manifest.payload == view(c.crds[info]).payload
  {
    hide Wanted, Survives;
    assert Back(d, start, KeyOf(info), Expected(merge, start, Slot.Crd, info, view(SlotMap(c, Slot.Crd)[info])));
  }

  /** ... so no version an object was stored under when the restore began is missing from it. */
  lemma BackCrdIsAccepted(d: Cluster, c: Contents, view: View, merge: Merge, start: Cluster,
                          faults: map<string, Fault>, read: string -> Versions, info: ObjInfo, stored: set<string>)
    requires AllBack(d, c, view, merge, start, faults) && MergesVersions(merge, read)
    requires info in c.crds && Wanted(Slot.Crd, info, view(c.crds[info]), faults)
    requires KeyOf(info) in d.objects && KeyOf(info) in start.objects && ValidSpec(read(view(c.crds[info]).payload))
    requires LiveValid(LiveCrd(read(start.objects[KeyOf(info)].manifest.payload), stored))
    ensures Accepts(LiveCrd(read(start.objects[KeyOf(info)].manifest.payload), stored),
                    read(d.objects[KeyOf(info)].manifest.payload))
    ensures read(view(c.crds[info]).payload) <= read(d.objects[KeyOf(info)].manifest.payload)
  {
    hide Wanted, ValidSpec, Merged, CrdMerge.Names, AllBack;
    BackCrdIsMerged(d, c, view, merge, start, faults, info);
    MergedIsValid(read(view(c.crds[info]).payload), read(start.objects[KeyOf(info)].manifest.payload));
  }
}
