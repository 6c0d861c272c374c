/** The backup archive as a map from path to bytes: how the collector writes it and the restore loads it. */
module ArchiveCodec {
  import opened Results
  import opened Kube
  import opened ArchivePath
  import opened Base64
  import opened Selection

  datatype Json =
    | Null
    | Bool(b: bool)
    | Num(literal: string)
    | Str(s: string)
    | Arr(items: seq<Json>)
    | Map(fields: map<string, Json>)

  /** The content of an unstructured object. */
  type Resource = map<string, Json>

  /** encoding/json */
  datatype Serializer = Serializer(marshal: Json -> Bytes, unmarshal: Bytes -> Option<Json>)

  /** Envelope encryption bound to authenticated data. The number stands for the nonce of one call. */
  datatype Transformer = Transformer(
    toStorage: (Bytes, string, nat) -> Option<Bytes>,
    fromStorage: (Bytes, string) -> Option<Bytes>)

  /** The libraries and keys of one operator. Reading a ResourceSet file fills in the selectors it mentions. */
  datatype Config = Config(
    json: Serializer,
    transformers: GroupResource -> Option<Transformer>,
    filtersParse: Bytes -> bool,
    mergeFilters: (Bytes, seq<Selector>) -> seq<Selector>)

  const BRACE: byte := 123

  /** What the program relies on of encoding/json: objects survive it, and start with a brace. */
  ghost predicate LawfulJson(json: Serializer) {
    forall fields: Resource ::
      var text := json.marshal(Map(fields));
      && json.unmarshal(text) == Some(Map(fields))
      && |text| > 0 && text[0] == BRACE
  }

  /** The restore's encryption configuration can read what the backup's wrote. */
  ghost predicate Undoes(backup: Config, restore: Config) {
    && backup.json == restore.json && LawfulJson(backup.json)
    && forall gr, text, aad, nonce | backup.transformers(gr).Some? && |text| > 0 && text[0] == BRACE ::
      var stored := backup.transformers(gr).value.toStorage(text, aad, nonce);
      && restore.transformers(gr).Some?
      && (stored.Some? && stored.value != text ==>
        restore.transformers(gr).value.fromStorage(stored.value, aad) == Some(text))
  }

  // ---- writing ----

  /** The metadata fields the API server owns; a backup leaves them out. */
  const SERVER_FIELDS := {"uid", "creationTimestamp", "deletionTimestamp", "selfLink", "resourceVersion",
                          "deletionGracePeriodSeconds"}

  function Fields(obj: Resource, name: string): Option<map<string, Json>> {
    if name in obj && obj[name].Map? then Some(obj[name].fields) else None
  }

  function Text(obj: map<string, Json>, name: string): Option<string> {
    if name in obj && obj[name].Str? then Some(obj[name].s) else None
  }

  /** A namespace keeps its finalizers in its spec. */
  predicate HasSpecFinalizers(obj: Resource) {
    var spec := Fields(obj, "spec");
    && spec.Some? && "finalizers" in spec.value && spec.value["finalizers"].Arr?
    && spec.value["finalizers"].items != []
    && forall f | f in spec.value["finalizers"].items :: f.Str?
  }

  /** An object being deleted is kept only while finalizers hold it. */
  predicate Persisted(obj: Resource) {
    var metadata := Fields(obj, "metadata");
    metadata.Some? && "deletionTimestamp" in metadata.value ==>
      if Text(obj, "kind") == Some("Namespace") then HasSpecFinalizers(obj) else "finalizers" in metadata.value
  }

  function WithoutServerFields(metadata: map<string, Json>): (r: map<string, Json>)
    ensures Text(r, "name") == Text(metadata, "name") && Text(r, "namespace") == Text(metadata, "namespace")
  {
    metadata - SERVER_FIELDS
  }

  function Stripped(obj: Resource): Resource {
    var metadata := Fields(obj, "metadata");
    if metadata.None? then obj else obj["metadata" := Map(WithoutServerFields(metadata.value))]
  }

  function GVROf(g: GVResource): GVR {
    GVR(g.group, g.version, g.name)
  }

  /** Where an object belongs; None where the writer's type assertions on its metadata panic. */
  function Identity(g: GVResource, obj: Resource): Option<Key> {
    var metadata := Fields(obj, "metadata");
    if metadata.None? then None
    else
      var name := Text(metadata.value, "name");
      var namespace := if g.namespaced then Text(metadata.value, "namespace") else Some("");
      if name.None? || namespace.None? then None else Some(Key(GVROf(g), namespace.value, name.value))
  }

  /** What was archived once is archived again as it is: a second backup of it keeps every field and its place. */
  lemma BackupIsStable(g: GVResource, obj: Resource)
    ensures Persisted(Stripped(obj)) && Stripped(Stripped(obj)) == Stripped(obj)
    ensures Identity(g, Stripped(obj)) == Identity(g, obj)
    ensures Text(Stripped(obj), "kind") == Text(obj, "kind")
  {
    hide HasSpecFinalizers;
    if Fields(obj, "metadata").Some? {
      var metadata := Fields(obj, "metadata").value;
      var kept := WithoutServerFields(metadata);
      assert Fields(Stripped(obj), "metadata") == Some(kept);
      assert WithoutServerFields(kept) == kept;
      assert Stripped(obj)["metadata" := Map(kept)] == Stripped(obj);
    }
  }

  // ---- what is written, field by field ----

  /** The API server keeps `obj` at `k`. */
  predicate PlacedAt(g: GVResource, obj: Resource, k: Key) {
    && k.gvr == GVR(g.group, g.version, g.name)
    && "metadata" in obj && obj["metadata"].Map?
    && var metadata := obj["metadata"].fields;
    && "name" in metadata && metadata["name"] == Str(k.name)
    && if g.namespaced then "namespace" in metadata && metadata["namespace"] == Str(k.namespace) else k.namespace == ""
  }

  /** `obj` is being deleted and no finalizer holds it; those of a namespace stand in its spec. */
  predicate OnItsWayOut(obj: Resource) {
    && "metadata" in obj && obj["metadata"].Map? && "deletionTimestamp" in obj["metadata"].fields
    && if "kind" in obj && obj["kind"] == Str("Namespace")
       then !(&& "spec" in obj && obj["spec"].Map? && "finalizers" in obj["spec"].fields
              && obj["spec"].fields["finalizers"].Arr? && |obj["spec"].fields["finalizers"].items| > 0
              && forall f | f in obj["spec"].fields["finalizers"].items :: f.Str?)
       else "finalizers" !in obj["metadata"].fields
  }

  predicate Has(fields: map<string, Json>, f: string, v: Json) {
    f in fields && fields[f] == v
  }

  /** `kept` is `obj` field by field, but for six of its metadata. */
  ghost predicate KeepsFields(obj: Resource, kept: Resource) {
    && (forall f, v | f != "metadata" :: Has(kept, f, v) <==> Has(obj, f, v))
    && "metadata" in obj && obj["metadata"].Map? && "metadata" in kept && kept["metadata"].Map?
    && forall f, v ::
      Has(kept["metadata"].fields, f, v) <==>
        && Has(obj["metadata"].fields, f, v)
        && f != "uid" && f != "creationTimestamp" && f != "deletionTimestamp"
        && f != "selfLink" && f != "resourceVersion" && f != "deletionGracePeriodSeconds"
  }

  lemma PlacedIff(g: GVResource, obj: Resource, k: Key)
    ensures Identity(g, obj) == Some(k) <==> PlacedAt(g, obj, k)
  {
  }

  lemma PersistedIff(obj: Resource)
    ensures Persisted(obj) <==> !OnItsWayOut(obj)
  {
  }

  /** What the writer makes of an object keeps its fields, and is all there is that does. */
  lemma StrippedIff(obj: Resource, kept: Resource)
    requires "metadata" in obj && obj["metadata"].Map?
    ensures kept == Stripped(obj) <==> KeepsFields(obj, kept)
  {
    StrippedKeepsFields(obj);
    if KeepsFields(obj, kept) {
      KeepsFieldsOnce(obj, kept, Stripped(obj));
    }
  }

  lemma StrippedKeepsFields(obj: Resource)
    requires "metadata" in obj && obj["metadata"].Map?
    ensures KeepsFields(obj, Stripped(obj))
  {
  }

  lemma KeepsFieldsOnce(obj: Resource, kept: Resource, other: Resource)
    requires KeepsFields(obj, kept) && KeepsFields(obj, other)
    ensures kept == other
  {
    hide Has;
    SameEntries(kept["metadata"].fields, other["metadata"].fields);
    HasOnce(kept, "metadata");
    HasOnce(other, "metadata");
    SameEntries(kept, other);
  }

  lemma HasOnce(fields: map<string, Json>, f: string)
    requires f in fields
    ensures forall v :: Has(fields, f, v) <==> v == fields[f]
  {
  }

  lemma SameEntries(a: map<string, Json>, b: map<string, Json>)
    requires forall f, v :: Has(a, f, v) <==> Has(b, f, v)
    ensures a == b
  {
    forall f | f in a ensures f in b && b[f] == a[f] {
      assert Has(a, f, a[f]);
    }
    forall f | f in b ensures f in a {
      assert Has(b, f, b[f]);
    }
  }

  /** What one file of the archive stands for. */
  datatype Archived = Archived(typ: GVResource, key: Key, obj: Resource)

  function AuthenticatedData(a: Archived): string {
    if a.typ.namespaced then a.key.namespace + "#" + a.key.name else a.key.name
  }

  /** writeToBackup: the bytes of one file. Encrypted content differs from the plain text and is quoted. */
  function FileBytes(config: Config, a: Archived, nonce: nat): Option<Bytes> {
    var text := config.json.marshal(Map(a.obj));
    var transformer := config.transformers(ParseGroupResource(a.typ.name + "." + a.typ.group));
    if transformer.None? then None
    else
      match transformer.value.toStorage(text, AuthenticatedData(a), nonce)
      case None => None
      case Some(stored) => Some(if stored == text then text else Quoted(stored))
  }

  ghost predicate StandsFor(config: Config, a: Archived, bytes: Bytes) {
    exists nonce: nat :: FileBytes(config, a, nonce) == Some(bytes)
  }

  /** The archive's share of one object. */
  function FiledOne(g: GVResource, obj: Resource): map<string, Archived> {
    var key := Identity(g, obj);
    if key.Some? && Persisted(obj) then map[WriterPath(key.value) := Archived(g, key.value, Stripped(obj))] else map[]
  }

  /** ... and of a type's objects, by path; a later copy of an object replaces an earlier one. */
  function Filed(g: GVResource, objs: seq<Resource>): map<string, Archived> {
    if objs == [] then map[] else Filed(g, objs[..|objs| - 1]) + FiledOne(g, objs[|objs| - 1])
  }

  /** Why an object cannot be written. */
  ghost predicate Unwritable(config: Config, g: GVResource, obj: Resource) {
    || Fields(obj, "metadata").None?
    || (Persisted(obj) && (Identity(g, obj).None? ||
         exists nonce: nat :: FileBytes(config, Archived(g, Identity(g, obj).value, Stripped(obj)), nonce).None?))
  }

  datatype WriteError = Panicked | TransformFailed

  class BackupWriter {
    const config: Config
    var objects: map<GVResource, seq<Resource>>
    var files: map<string, Bytes>
    var nonce: nat

    constructor (config: Config, objects: map<GVResource, seq<Resource>>)
      ensures this.config == config && this.objects == objects && files == map[]
    {
      this.config, this.objects, this.files, this.nonce := config, objects, map[], 0;
    }

    /** `held` says what each file stands for. */
    ghost predicate Holds(held: map<string, Archived>)
      reads this
    {
      held.Keys == files.Keys && forall p | p in held :: StandsFor(config, held[p], files[p])
    }

    /** Writes one object, unless it is on its way out, and returns what is left of it in memory. */
    method WriteObject(g: GVResource, obj: Resource, ghost held: map<string, Archived>)
      returns (r: Result<Resource, WriteError>)
      requires Holds(held)
      modifies this`files, this`nonce
      ensures r.Ok? ==> Holds(held + FiledOne(g, obj)) && r.value == if Persisted(obj) then Stripped(obj) else obj
      ensures r.Ok? && OnItsWayOut(obj) ==> r.value == obj && Holds(held)
      ensures r.Ok? && !OnItsWayOut(obj) ==>
                && KeepsFields(obj, r.value)
                && exists k :: PlacedAt(g, obj, k) && Holds(held[WriterPath(k) := Archived(g, k, r.value)])
      ensures r.Err? ==> Unwritable(config, g, obj) && Holds(held)
    {
      hide StandsFor, FileBytes, HasSpecFinalizers, WriterPath, WithoutServerFields, Unwritable, OnItsWayOut, PlacedAt,
           KeepsFields;
      CannotWrite(config, g, obj, nonce + 1);
      PersistedIff(obj);
      if Fields(obj, "metadata").None? {
        return Err(Panicked);
      }
      var metadata := Fields(obj, "metadata").value;
      if "deletionTimestamp" in metadata {
        if Text(obj, "kind") != Some("Namespace") {
          if "finalizers" !in metadata {
            return Ok(obj);
          }
        } else if !HasSpecFinalizers(obj) {
          return Ok(obj);
        }
      }
      var name := Text(metadata, "name");
      if name.None? {
        return Err(Panicked);
      }
      metadata := WithoutServerFields(metadata);
      var stripped := obj["metadata" := Map(metadata)];
      var namespace := if g.namespaced then Text(metadata, "namespace") else Some("");
      if namespace.None? {
        return Err(Panicked);
      }
      var a := Archived(g, Key(GVROf(g), namespace.value, name.value), stripped);
      nonce := nonce + 1;
      assert a == Archived(g, Identity(g, obj).value, Stripped(obj));
      var bytes := FileBytes(config, a, nonce);
      if bytes.None? {
        return Err(TransformFailed);
      }
      WrittenStandsFor(config, a, nonce);
      files := files[WriterPath(a.key) := bytes.value];
      PlacedIff(g, obj, a.key);
      StrippedKeepsFields(obj);
      assert held + FiledOne(g, obj) == held[WriterPath(a.key) := Archived(g, a.key, stripped)];
      return Ok(stripped);
    }

    /** The files of one type, in the order the collector gathered its objects. */
    method WriteType(g: GVResource, ghost held0: map<string, Archived>)
      returns (r: Result<(), WriteError>, ghost held: map<string, Archived>)
      requires g in objects && Holds(held0)
      modifies this`objects, this`files, this`nonce
      ensures objects.Keys == old(objects.Keys) && forall t | t in objects && t != g :: objects[t] == old(objects)[t]
      ensures Holds(held)
      ensures r.Ok? ==> held == held0 + Filed(g, old(objects)[g]) && LeftInMemory(old(objects)[g], objects[g])
      ensures r.Err? ==> exists obj | obj in old(objects)[g] :: Unwritable(config, g, obj)
    {
      hide Persisted, Stripped, StandsFor, Unwritable, Filed, FiledOne, LeftInMemory;
      held := held0;
      ghost var before := objects[g];
      FiledNothing(g, held0);
      LeftNothing();
      var resObjects := objects[g];
      for i := 0 to |resObjects|
        invariant objects.Keys == old(objects.Keys) && objects[g] == resObjects && |resObjects| == |before|
        invariant forall t | t in objects && t != g :: objects[t] == old(objects)[t]
        invariant forall j | i <= j < |before| :: resObjects[j] == before[j]
        invariant LeftInMemory(before[..i], resObjects[..i])
        invariant Holds(held) && held == held0 + Filed(g, before[..i])
      {
        var obj := resObjects[i];
        FiledSnoc(g, before, i, held0);
        LeftSnoc(before, resObjects, i);
        var left := WriteObject(g, obj, held);
        if left.Err? {
          assert before[i] in before;
          return Err(left.error), held;
        }
        held := held + FiledOne(g, obj);
        resObjects := resObjects[i := left.value];
        objects := objects[g := resObjects];
      }
      assert before[..|before|] == before && resObjects[..|before|] == resObjects;
      return Ok(()), held;
    }

    /** WriteBackupObjects: every type's objects, in whatever order Go's map iteration presents the types. */
    method WriteBackupObjects() returns (r: Result<(), WriteError>, ghost held: map<string, Archived>)
      requires files == map[]
      modifies this`objects, this`files, this`nonce
      ensures Holds(held)
      ensures r.Ok? ==> ArchiveHolds(old(objects), held)
      ensures r.Ok? ==>
                objects.Keys == old(objects.Keys)
                && forall g | g in objects :: LeftInMemory(old(objects)[g], objects[g])
      ensures r.Err? ==> exists g, obj :: g in old(objects) && obj in old(objects)[g] && Unwritable(config, g, obj)
    {
      hide Filed, StandsFor, Unwritable, LeftInMemory;
      held := map[];
      ghost var before := objects;
      var remaining := objects.Keys;
      while remaining != {}
        invariant remaining <= objects.Keys == before.Keys
        invariant forall g | g in remaining :: objects[g] == before[g]
        invariant forall g | g in objects && g !in remaining :: LeftInMemory(before[g], objects[g])
        invariant Holds(held)
        invariant forall g, p | g in before && g !in remaining && p in Filed(g, before[g]) :: p in held
        invariant forall p | p in held :: exists g | g in before && g !in remaining ::
                  p in Filed(g, before[g]) && held[p] == Filed(g, before[g])[p]
        decreases remaining
      {
        var g :| g in remaining;
        remaining := remaining - {g};
        ghost var held0 := held;
        r, held := WriteType(g, held0);
        if r.Err? {
          return;
        }
      }
      r := Ok(());
    }
  }

  /** What the writer leaves of the objects in memory: those written have lost the server's fields. */
  ghost predicate LeftInMemory(before: seq<Resource>, after: seq<Resource>) {
    && |after| == |before|
    && forall i | 0 <= i < |before| :: after[i] == if Persisted(before[i]) then Stripped(before[i]) else before[i]
  }

  lemma CannotWrite(config: Config, g: GVResource, obj: Resource, nonce: nat)
    ensures Fields(obj, "metadata").None? ==> Unwritable(config, g, obj)
    ensures Persisted(obj) && Identity(g, obj).None? ==> Unwritable(config, g, obj)
    ensures Persisted(obj) && Identity(g, obj).Some?
            && FileBytes(config, Archived(g, Identity(g, obj).value, Stripped(obj)), nonce).None? ==>
              Unwritable(config, g, obj)
  {
  }

  lemma WrittenStandsFor(config: Config, a: Archived, nonce: nat)
    requires FileBytes(config, a, nonce).Some?
    ensures StandsFor(config, a, FileBytes(config, a, nonce).value)
  {
  }

  lemma LeftSnoc(before: seq<Resource>, objs: seq<Resource>, i: nat)
    requires i < |before| == |objs| && LeftInMemory(before[..i], objs[..i])
    ensures var left := if Persisted(before[i]) then Stripped(before[i]) else before[i];
            LeftInMemory(before[..i + 1], objs[i := left][..i + 1])
  {
    hide Persisted, Stripped;
    assert forall j | 0 <= j < i :: before[..i][j] == before[j] && objs[..i][j] == objs[j];
  }

  lemma LeftNothing()
    ensures LeftInMemory([], [])
  {
  }

  lemma FiledSnoc(g: GVResource, objs: seq<Resource>, i: nat, held: map<string, Archived>)
    requires i < |objs|
    ensures held + Filed(g, objs[..i]) + FiledOne(g, objs[i]) == held + Filed(g, objs[..i + 1])
  {
    hide FiledOne;
    assert objs[..i + 1][..i] == objs[..i];
  }

  lemma FiledNothing(g: GVResource, held: map<string, Archived>)
    ensures held + Filed(g, []) == held
  {
  }

  /** The archive holds exactly what should be in it of the gathered objects. */
  ghost predicate ArchiveHolds(objects: map<GVResource, seq<Resource>>, held: map<string, Archived>) {
    && (forall g, p | g in objects && p in Filed(g, objects[g]) :: p in held)
    && (forall p | p in held :: exists g | g in objects ::
      p in Filed(g, objects[g]) && held[p] == Filed(g, objects[g])[p])
  }
}
