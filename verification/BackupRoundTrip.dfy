/** From the objects a backup gathers to the objects a restore loads. */
module BackupRoundTrip {
  import opened Results
  import opened GoStrings
  import opened Kube
  import opened ArchivePath
  import opened Base64
  import opened Selection
  import opened ArchiveCodec
  import opened ArchiveLoader

  type Objects = map<GVResource, seq<Resource>>

  /** `obj` is among the gathered objects and belongs in the archive under `k`. */
  predicate Belongs(objects: Objects, g: GVResource, obj: Resource, k: Key) {
    g in objects && obj in objects[g] && Persisted(obj) && Identity(g, obj) == Some(k)
  }

  /** The API server's rules: well-formed names, a namespace exactly for namespaced types, and CRDs without one. */
  predicate WellPlaced(g: GVResource, k: Key) {
    && WellFormed(k) && (g.namespaced <==> k.namespace != "")
    && (IsCrd(g.name) ==> !g.namespaced)
  }

  ghost predicate AllWellPlaced(objects: Objects) {
    forall g, obj, k | Belongs(objects, g, obj, k) :: WellPlaced(g, k)
  }

  /** Copies of one object gathered by several selectors do not differ, but for the server's fields. */
  ghost predicate Snapshot(objects: Objects) {
    forall g, obj, copy, k | Belongs(objects, g, obj, k) && Belongs(objects, g, copy, k) ::
      Stripped(obj) == Stripped(copy)
  }

  predicate FiledBy(g: GVResource, objs: seq<Resource>, p: string) {
    exists obj | obj in objs :: p in FiledOne(g, obj)
  }

  predicate FiledAs(g: GVResource, objs: seq<Resource>, p: string, a: Archived) {
    exists obj | obj in objs :: FiledOne(g, obj) == map[p := a]
  }

  lemma FiledBySnoc(g: GVResource, objs: seq<Resource>, last: Resource, p: string)
    ensures FiledBy(g, objs + [last], p) <==> FiledBy(g, objs, p) || p in FiledOne(g, last)
  {
    hide FiledOne;
    if FiledBy(g, objs + [last], p) {
      var obj :| obj in objs + [last] && p in FiledOne(g, obj);
      assert obj in objs || obj == last;
    }
    assert forall obj | obj in objs :: obj in objs + [last];
    assert last in objs + [last];
  }

  lemma FiledAsSnoc(g: GVResource, objs: seq<Resource>, last: Resource, p: string, a: Archived)
    ensures FiledAs(g, objs, p, a) || FiledOne(g, last) == map[p := a] ==> FiledAs(g, objs + [last], p, a)
  {
    hide FiledOne;
    assert forall obj | obj in objs :: obj in objs + [last];
    assert last in objs + [last];
  }

  /** A path is filed if some object files it, and stands for such an object. */
  lemma {:induction false} FiledMembers(g: GVResource, objs: seq<Resource>, p: string)
    ensures p in Filed(g, objs) <==> FiledBy(g, objs, p)
    ensures p in Filed(g, objs) ==> FiledAs(g, objs, p, Filed(g, objs)[p])
  {
    hide FiledOne, FiledBy, FiledAs;
    if objs == [] {
      NothingFiled(g, p);
    } else {
      var n := |objs| - 1;
      var init, last := objs[..n], objs[n];
      FiledMembers(g, init, p);
      assert objs == init + [last];
      FiledBySnoc(g, init, last, p);
      if p in FiledOne(g, last) {
        FiledOneIsSmall(g, last, p);
        FiledAsSnoc(g, init, last, p, FiledOne(g, last)[p]);
      } else if p in Filed(g, init) {
        FiledAsSnoc(g, init, last, p, Filed(g, init)[p]);
      }
    }
  }

  lemma NothingFiled(g: GVResource, p: string)
    ensures !FiledBy(g, [], p)
  {
  }

  lemma FiledOneIsSmall(g: GVResource, obj: Resource, p: string)
    ensures p in FiledOne(g, obj) ==> FiledOne(g, obj) == map[p := FiledOne(g, obj)[p]]
  {
    hide Persisted, Identity, WriterPath, Stripped;
  }

  /** A file of the archive comes from a gathered object; `g` and `obj` are that object. */
  lemma HeldComesFrom(objects: Objects, held: map<string, Archived>, p: string) returns (g: GVResource, obj: Resource)
    requires ArchiveHolds(objects, held) && p in held
    ensures Belongs(objects, g, obj, held[p].key)
    ensures p == WriterPath(held[p].key) && held[p] == Archived(g, held[p].key, Stripped(obj))
  {
    hide Filed, Persisted, Identity, WriterPath, Stripped;
    g :| g in objects && p in Filed(g, objects[g]) && held[p] == Filed(g, objects[g])[p];
    FiledMembers(g, objects[g], p);
    obj :| obj in objects[g] && FiledOne(g, obj) == map[p := held[p]];
    FiledOneIs(g, obj, p, held[p]);
  }

  lemma FiledOneIs(g: GVResource, obj: Resource, p: string, a: Archived)
    requires FiledOne(g, obj) == map[p := a]
    ensures Persisted(obj) && Identity(g, obj) == Some(a.key) && p == WriterPath(a.key)
            && a == Archived(g, a.key, Stripped(obj))
  {
    hide Persisted, Identity, WriterPath, Stripped;
    var one := FiledOne(g, obj);
    assert p in one && one[p] == a;
  }

  lemma IdentityHasType(g: GVResource, obj: Resource, k: Key)
    requires Identity(g, obj) == Some(k)
    ensures k.gvr == GVROf(g)
  {
  }

  /** What the writer leaves behind can be read back. */
  lemma WrittenIsSound(backup: Config, restore: Config, objects: Objects, held: map<string, Archived>,
                       files: map<string, Bytes>)
    requires Undoes(backup, restore) && ArchiveHolds(objects, held) && AllWellPlaced(objects)
    requires held.Keys == files.Keys && forall p | p in held :: StandsFor(backup, held[p], files[p])
    ensures Sound(backup, restore, held, files)
  {
    hide Undoes, ArchiveHolds, StandsFor, Belongs, WriterPath, Stripped, Identity;
    forall p | p in held ensures SoundFile(backup, held[p], p, files[p]) {
      var g, obj := HeldComesFrom(objects, held, p);
      assert WellPlaced(g, held[p].key);
      assert held[p].key.gvr == GVROf(g) by {
        BelongsGives(objects, g, obj, held[p].key);
        IdentityHasType(g, obj, held[p].key);
      }
    }
  }

  lemma BelongsGives(objects: Objects, g: GVResource, obj: Resource, k: Key)
    requires Belongs(objects, g, obj, k)
    ensures g in objects && obj in objects[g] && Persisted(obj) && Identity(g, obj) == Some(k)
  {
    hide Persisted, Identity;
  }

  lemma BelongsIff(objects: Objects, g: GVResource, obj: Resource, k: Key)
    ensures Belongs(objects, g, obj, k) <==>
            g in objects && obj in objects[g] && !OnItsWayOut(obj) && PlacedAt(g, obj, k)
  {
  }

  /** `loaded` is, under the identity `info`, a gathered object that is not on its way out, with all its fields but
      the six. */
  ghost predicate Backed(objects: Objects, info: ObjInfo, loaded: Resource) {
    exists g, obj, k :: BackedBy(objects, info, loaded, g, obj, k)
  }

  ghost predicate BackedBy(objects: Objects, info: ObjInfo, loaded: Resource, g: GVResource, obj: Resource, k: Key) {
    && g in objects && obj in objects[g] && !OnItsWayOut(obj) && PlacedAt(g, obj, k) && KeepsFields(obj, loaded)
    && info == ObjInfo(k.name, k.namespace, k.gvr, WriterPath(k)) && !Contains(WriterPath(k), "filters")
  }

  lemma BackedByIff(objects: Objects, info: ObjInfo, loaded: Resource, g: GVResource, obj: Resource, k: Key)
    ensures BackedBy(objects, info, loaded, g, obj, k) <==>
            Belongs(objects, g, obj, k) && info == InfoOf(k) && !IsFilters(WriterPath(k)) && loaded == Stripped(obj)
  {
    hide WriterPath, Contains, KeepsFields, Stripped, OnItsWayOut, Belongs;
    BelongsIff(objects, g, obj, k);
    if PlacedAt(g, obj, k) {
      StrippedIff(obj, loaded);
    }
  }

  lemma ArchivedExactly(objects: Objects, held: map<string, Archived>, info: ObjInfo, loaded: Resource)
    requires ArchiveHolds(objects, held) && AllWellPlaced(objects) && Snapshot(objects)
    ensures InArchive(held, info, loaded) <==> Backed(objects, info, loaded)
  {
    hide Filed, Persisted, Identity, WriterPath, Stripped, IsFilters, Belongs, AllWellPlaced, ArchiveHolds, WellFormed,
         BackedBy;
    if InArchive(held, info, loaded) {
      var p :| p in held && !IsFilters(p) && info == InfoOf(held[p].key) && loaded == held[p].obj;
      var g, obj := HeldComesFrom(objects, held, p);
      BackedByIff(objects, info, loaded, g, obj, held[p].key);
    }
    if Backed(objects, info, loaded) {
      var g, obj, k :| BackedBy(objects, info, loaded, g, obj, k);
      BackedByIff(objects, info, loaded, g, obj, k);
      var p := WriterPath(k);
      BelongsIsHeld(objects, held, g, obj, k);
      var h, copy := HeldComesFrom(objects, held, p);
      SamePathSameObject(objects, g, obj, k, h, copy, held[p].key);
      assert held[p].obj == Stripped(copy) == loaded;
    }
  }

  lemma BelongsIsHeld(objects: Objects, held: map<string, Archived>, g: GVResource, obj: Resource, k: Key)
    requires ArchiveHolds(objects, held) && Belongs(objects, g, obj, k)
    ensures WriterPath(k) in held
  {
    hide Filed, WriterPath, Stripped;
    assert WriterPath(k) in FiledOne(g, obj);
    FiledMembers(g, objects[g], WriterPath(k));
  }

  lemma SamePathSameObject(objects: Objects, g: GVResource, obj: Resource, k: Key, h: GVResource, copy: Resource,
                           l: Key)
    requires AllWellPlaced(objects) && Snapshot(objects)
    requires Belongs(objects, g, obj, k) && Belongs(objects, h, copy, l) && WriterPath(k) == WriterPath(l)
    ensures k == l && g == h && Stripped(obj) == Stripped(copy)
  {
    hide Persisted, WriterPath, Stripped, Identity;
    assert WellPlaced(g, k) && WellPlaced(h, l);
    WriterPathInjective(k, l);
    IdentityHasType(g, obj, k);
    IdentityHasType(h, copy, l);
  }

  /** Archive round trip, end to end: the tarball of what the writer wrote loads, and what is loaded is exactly
      every gathered object that is not on its way out, under the identity it was gathered with and minus the
      server's fields, except builtin roles and objects whose path contains "filters". */
  lemma BackupThenLoad(backup: Config, restore: Config, objects: Objects, held: map<string, Archived>,
                       files: map<string, Bytes>,
                       filters: Bytes, entries: seq<Entry>, slot: Slot, info: ObjInfo, loaded: Resource)
    requires Undoes(backup, restore) && ArchiveHolds(objects, held) && AllWellPlaced(objects) && Snapshot(objects)
    requires held.Keys == files.Keys && forall p | p in held :: StandsFor(backup, held[p], files[p])
    requires TarOf(entries, files, filters) && restore.filtersParse(filters)
    requires forall p | p in files && Contains(p, "filters.json") :: restore.filtersParse(files[p])
    requires slot != SkippedBuiltin
    ensures LoadAll(restore, entries).Ok?
    ensures In(LoadAll(restore, entries).value, slot, info, loaded) <==>
            SlotOf(info, loaded) == slot && Backed(objects, info, loaded)
  {
    hide Undoes, ArchiveHolds, AllWellPlaced, Snapshot, StandsFor, Sound, TarOf, In, SlotOf, Backed, InArchive;
    WrittenIsSound(backup, restore, objects, held, files);
    ArchiveRoundTrip(backup, restore, held, files, filters, entries);
    ArchivedExactly(objects, held, info, loaded);
  }

  /** A JSON string does not parse as a ResourceSet. */
  ghost predicate LawfulFilters(config: Config) {
    forall b: Bytes :: !config.filtersParse(Quoted(b))
  }

  /** The file name matters even to encrypted objects: one whose name ends in "filters" is read as a ResourceSet,
      which ciphertext is not, so a single such object makes the whole archive unreadable. */
  lemma FiltersNameAborts(backup: Config, restore: Config, a: Archived, nonce: nat, entries: seq<Entry>, e: Entry,
                          g: nat)
    requires LawfulFilters(restore) && FileBytes(backup, a, nonce) == Some(e.data)
    requires e.data != backup.json.marshal(Map(a.obj))
    requires e in entries && e.regular && e.name == WriterPath(a.key) && '/' !in a.key.name
    requires OccursAt(a.key.name, "filters", g) && g + 7 == |a.key.name|
    ensures LoadAll(restore, entries).Err?
  {
    hide LoadAll, DecodeFile, Contains, OccursAt, WriterPath, Quoted, AuthenticatedData, ParseGroupResource;
    assert !restore.filtersParse(e.data);
    PathsAgree(a.key);
    var dir := Join(TypeDir(a.key.gvr), a.key.namespace) + "/";
    OccursExtended(a.key.name, "filters", EXTENSION, g);
    OccursInSuffix(dir, a.key.name + EXTENSION, "filters", g);
    OccursInSuffix(dir, a.key.name + EXTENSION, "filters.json", g);
    assert !Readable(restore, e);
    LoadsIffReadable(restore, entries);
  }

  lemma OccursExtended(s: string, sub: string, ext: string, g: nat)
    requires OccursAt(s, sub, g) && g + |sub| == |s|
    ensures OccursAt(s + ext, sub, g) && OccursAt(s + ext, sub + ext, g)
  {
    assert (s + ext)[g..g + |sub|] == s[g..g + |sub|];
    assert (s + ext)[g..g + |sub + ext|] == sub + ext;
  }

  lemma OccursInSuffix(prefix: string, s: string, sub: string, g: nat)
    requires OccursAt(s, sub, g)
    ensures OccursAt(prefix + s, sub, |prefix| + g) && Contains(prefix + s, sub)
  {
    assert (prefix + s)[|prefix| + g..|prefix| + g + |sub|] == s[g..g + |sub|];
    var t, i := prefix + s, |prefix| + g;
    assert i <= |t| && OccursAt(t, sub, i);
  }
}
