/** Reading a backup archive back: LoadFromTarGzip and loadDataFromFile, and why they undo the writer. */
module ArchiveLoader {
  import opened Results
  import opened GoStrings
  import opened Kube
  import opened ArchivePath
  import opened Base64
  import opened Selection
  import opened ArchiveCodec

  /** A tar entry; directories are not regular. */
  datatype Entry = Entry(name: string, regular: bool, data: Bytes)

  datatype LoadError =
    | MalformedPath
    | EmptyFile
    | NotCiphertext
    | CannotDecrypt
    | NotAnObject
    | NoEncryptionConfig
    | BadFilters

  /** Which of the loaded maps an object goes into. */
  datatype Slot = SkippedBuiltin | Crd | ClusterScoped | Namespaced

  datatype Contents = Contents(
    crds: map<ObjInfo, Resource>,
    clusterScoped: map<ObjInfo, Resource>,
    namespaced: map<ObjInfo, Resource>,
    paths: set<string>,
    selectors: seq<Selector>)

  const EMPTY := Contents(map[], map[], map[], {}, [])

  /** shouldSkipBuiltin */
  predicate Builtin(resource: string, obj: Resource) {
    && (EqualFold(resource, "globalroles") || EqualFold(resource, "roletemplates"))
    && "builtin" in obj && (obj["builtin"] == Str("true") || obj["builtin"] == Bool(true))
  }

  predicate IsCrd(resource: string) {
    EqualFold(resource, "customresourcedefinitions")
  }

  function SlotOf(info: ObjInfo, obj: Resource): Slot {
    if Builtin(info.gvr.resource, obj) then SkippedBuiltin
    else if IsCrd(info.gvr.resource) then Crd
    else if info.namespace != "" then Namespaced
    else ClusterScoped
  }

  /** The first match counts: a builtin role, a CRD, and then whether the object has a namespace. */
  lemma SlotIff(info: ObjInfo, obj: Resource)
    ensures var resource := ToLower(info.gvr.resource);
            && (SlotOf(info, obj) == SkippedBuiltin <==>
              (resource == "globalroles" || resource == "roletemplates")
              && "builtin" in obj && obj["builtin"] in {Str("true"), Bool(true)})
            && (SlotOf(info, obj) == Crd <==> resource == "customresourcedefinitions")
            && (SlotOf(info, obj) == Namespaced ==> info.namespace != "")
            && (SlotOf(info, obj) == ClusterScoped ==> info.namespace == "")
  {
    assert ToLower("globalroles") == "globalroles" && ToLower("roletemplates") == "roletemplates";
    assert ToLower("customresourcedefinitions") == "customresourcedefinitions";
  }

  function ParseObject(json: Serializer, text: Bytes, encrypted: bool): Result<Resource, LoadError> {
    match json.unmarshal(text)
    case Some(Map(fields)) => Ok(fields)
    case Some(Null) => Ok(map[])
    case Some(Str(_)) => if encrypted then Err(NotAnObject) else Err(NoEncryptionConfig)
    case _ => Err(NotAnObject)
  }

  /** The object a file holds. A leading quote tells ciphertext from a plain object; a CRD has no namespace. */
  function DecodeFile(config: Config, name: string, data: Bytes): Result<(ObjInfo, Resource), LoadError> {
    match ParsePath(name)
    case Err(_) => Err(MalformedPath)
    case Ok(parsed) =>
      var gvr := parsed.info.gvr;
      var info := if IsCrd(gvr.resource) then parsed.info.(namespace := "") else parsed.info;
      var text :=
        match config.transformers(GroupResource(gvr.group, gvr.resource))
        case None => Ok(data)
        case Some(transformer) =>
          if data == [] then Err(EmptyFile)
          else if data[0] != QUOTE then Ok(data)
          else
            match Unquoted(data)
            case None => Err(NotCiphertext)
            case Some(stored) =>
              match transformer.fromStorage(stored, parsed.aad)
              case None => Err(CannotDecrypt)
              case Some(text) => Ok(text);
      match text
      case Err(e) => Err(e)
      case Ok(text) =>
        match ParseObject(config.json, text, config.transformers(GroupResource(gvr.group, gvr.resource)).Some?)
        case Err(e) => Err(e)
        case Ok(obj) => Ok((info, obj))
  }

  function Insert(c: Contents, info: ObjInfo, obj: Resource): Contents {
    match SlotOf(info, obj)
    case SkippedBuiltin => c
    case Crd => c.(crds := c.crds[info := obj])
    case ClusterScoped => c.(clusterScoped := c.clusterScoped[info := obj])
    case Namespaced => c.(namespaced := c.namespaced[info := obj])
  }

  /** Any path containing "filters" is taken for part of the archived ResourceSet. */
  predicate IsFilters(name: string) {
    Contains(name, "filters")
  }

  function LoadFilters(config: Config, c: Contents, e: Entry): Result<Contents, LoadError> {
    if !Contains(e.name, "filters.json") then Ok(c)
    else if config.filtersParse(e.data) then Ok(c.(selectors := config.mergeFilters(e.data, c.selectors)))
    else Err(BadFilters)
  }

  function LoadEntry(config: Config, c: Contents, e: Entry): Result<Contents, LoadError> {
    if !e.regular then Ok(c)
    else if IsFilters(e.name) then LoadFilters(config, c, e)
    else
      match DecodeFile(config, e.name, e.data)
      case Err(err) => Err(err)
      case Ok((info, obj)) => Ok(Insert(c.(paths := c.paths + {e.name}), info, obj))
  }

  function LoadAll(config: Config, entries: seq<Entry>): Result<Contents, LoadError> {
    if entries == [] then Ok(EMPTY)
    else
      match LoadAll(config, entries[..|entries| - 1])
      case Err(e) => Err(e)
      case Ok(c) => LoadEntry(config, c, entries[|entries| - 1])
  }

  class ObjectsFromBackup {
    var crdInfoToData: map<ObjInfo, Resource>
    var clusterscopedResourceInfoToData: map<ObjInfo, Resource>
    var namespacedResourceInfoToData: map<ObjInfo, Resource>
    var resourcesFromBackup: set<string>
    var backupResourceSet: seq<Selector>

    constructor ()
      ensures Loaded() == EMPTY
    {
      crdInfoToData, clusterscopedResourceInfoToData, namespacedResourceInfoToData := map[], map[], map[];
      resourcesFromBackup, backupResourceSet := {}, [];
    }

    ghost function Loaded(): Contents
      reads this
    {
      Contents(crdInfoToData, clusterscopedResourceInfoToData, namespacedResourceInfoToData, resourcesFromBackup,
               backupResourceSet)
    }

    /** loadDataFromFile; the path is recorded before anything can fail. */
    method LoadDataFromFile(config: Config, name: string, data: Bytes) returns (err: Option<LoadError>)
      modifies this
      ensures var r := DecodeFile(config, name, data);
              var c := old(Loaded()).(paths := old(Loaded()).paths + {name});
              && err == (if r.Err? then Some(r.error) else None)
              && Loaded() == if r.Err? then c else Insert(c, r.value.0, r.value.1)
    {
      hide ParsePath, Unquoted, EqualFold;
      resourcesFromBackup := resourcesFromBackup + {name};
      var path := ParsePath(name);
      if path.Err? {
        return Some(MalformedPath);
      }
      var namespace, aad, gvr := path.value.info.namespace, path.value.aad, path.value.info.gvr;
      var transformer := config.transformers(GroupResource(gvr.group, gvr.resource));
      var readData := data;
      if transformer.Some? {
        if data == [] {
          return Some(EmptyFile);
        }
        if readData[0] == QUOTE {
          var encryptedBytes := Unquoted(readData);
          if encryptedBytes.None? {
            return Some(NotCiphertext);
          }
          var decrypted := transformer.value.fromStorage(encryptedBytes.value, aad);
          if decrypted.None? {
            return Some(CannotDecrypt);
          }
          readData := decrypted.value;
        }
      }
      var fileMap := ParseObject(config.json, readData, transformer.Some?);
      if fileMap.Err? {
        return Some(fileMap.error);
      }
      var info := ObjInfo(path.value.info.name, "", gvr, path.value.info.configPath);
      if Builtin(gvr.resource, fileMap.value) {
        return None;
      }
      if IsCrd(gvr.resource) {
        crdInfoToData := crdInfoToData[info := fileMap.value];
      } else if namespace != "" {
        info := info.(namespace := namespace);
        namespacedResourceInfoToData := namespacedResourceInfoToData[info := fileMap.value];
      } else {
        clusterscopedResourceInfoToData := clusterscopedResourceInfoToData[info := fileMap.value];
      }
      return None;
    }

    /** LoadFromTarGzip: the first entry that cannot be read aborts the restore. */
    method LoadFromTarGzip(config: Config, entries: seq<Entry>) returns (err: Option<LoadError>)
      requires Loaded() == EMPTY
      modifies this
      ensures var r := LoadAll(config, entries);
              && err == (if r.Err? then Some(r.error) else None)
              && (r.Ok? ==> Loaded() == r.value)
    {
      hide DecodeFile, Insert, IsFilters, Contains;
      for i := 0 to |entries|
        invariant LoadAll(config, entries[..i]) == Ok(Loaded())
      {
        assert entries[..i + 1][..i] == entries[..i];
        var e := entries[i];
        if !e.regular {
          continue;
        }
        if IsFilters(e.name) {
          if Contains(e.name, "filters.json") {
            if !config.filtersParse(e.data) {
              LoadAllErr(config, entries, i + 1);
              return Some(BadFilters);
            }
            backupResourceSet := config.mergeFilters(e.data, backupResourceSet);
          }
          continue;
        }
        err := LoadDataFromFile(config, e.name, e.data);
        if err.Some? {
          LoadAllErr(config, entries, i + 1);
          return;
        }
      }
      assert entries[..|entries|] == entries;
      return None;
    }
  }

  lemma LoadAllErr(config: Config, entries: seq<Entry>, k: nat)
    requires k <= |entries| && LoadAll(config, entries[..k]).Err?
    ensures LoadAll(config, entries) == LoadAll(config, entries[..k])
    decreases |entries|
  {
    hide LoadEntry;
    if k < |entries| {
      assert entries[..|entries| - 1][..k] == entries[..k];
      LoadAllErr(config, entries[..|entries| - 1], k);
    } else {
      assert entries[..k] == entries;
    }
  }

  // ---- round trip ----

  function SlotMap(c: Contents, slot: Slot): map<ObjInfo, Resource> {
    match slot
    case SkippedBuiltin => map[]
    case Crd => c.crds
    case ClusterScoped => c.clusterScoped
    case Namespaced => c.namespaced
  }

  predicate In(c: Contents, slot: Slot, info: ObjInfo, obj: Resource) {
    info in SlotMap(c, slot) && SlotMap(c, slot)[info] == obj
  }

  /** One file: whatever the writer stored, the loader gets back with its identity, encrypted or not. */
  lemma FileRoundTrip(backup: Config, restore: Config, a: Archived, nonce: nat)
    requires Undoes(backup, restore) && FileBytes(backup, a, nonce).Some?
    requires WellFormed(a.key) && a.key.gvr == GVROf(a.typ)
    requires a.typ.namespaced <==> a.key.namespace != ""
    requires IsCrd(a.typ.name) ==> !a.typ.namespaced
    ensures DecodeFile(restore, WriterPath(a.key), FileBytes(backup, a, nonce).value) == Ok((InfoOf(a.key), a.obj))
  {
    hide WriterPath, IsCrd, ParsePath, Undoes, ParseGroupResource, Quoted, Unquoted;
    ParseWriterPath(a.key);
    ParseGroupResourceOf(a.key.gvr);
    var gr := GroupResource(a.key.gvr.group, a.key.gvr.resource);
    assert AuthenticatedData(a) == WriterAAD(a.key);
    var text := backup.json.marshal(Map(a.obj));
    StoredIsReadable(backup, restore, gr, a.obj, AuthenticatedData(a), nonce);
  }

  /** Both branches of the discriminator, for one stored text. */
  lemma StoredIsReadable(backup: Config, restore: Config, gr: GroupResource, obj: Resource, aad: string, nonce: nat)
    requires Undoes(backup, restore)
    requires backup.transformers(gr).Some?
    requires backup.transformers(gr).value.toStorage(backup.json.marshal(Map(obj)), aad, nonce).Some?
    ensures var text := backup.json.marshal(Map(obj));
            var stored := backup.transformers(gr).value.toStorage(text, aad, nonce).value;
            var data := if stored == text then text else Quoted(stored);
            && restore.transformers(gr).Some? && |data| > 0
            && restore.json.unmarshal(text) == Some(Map(obj))
            && (stored == text ==> data[0] != QUOTE)
            && (stored != text ==> data[0] == QUOTE && Unquoted(data) == Some(stored)
                                   && restore.transformers(gr).value.fromStorage(stored, aad) == Some(text))
  {
    var text := backup.json.marshal(Map(obj));
    var stored := backup.transformers(gr).value.toStorage(text, aad, nonce).value;
    assert backup.json.unmarshal(text) == Some(Map(obj)) && |text| > 0 && text[0] == BRACE;
    UnquotedQuoted(stored);
  }

  lemma ParseGroupResourceOf(gvr: GVR)
    requires '.' !in gvr.resource
    ensures ParseGroupResource(gvr.resource + "." + gvr.group) == GroupResource(gvr.group, gvr.resource)
  {
    assert gvr.resource + "." + gvr.group == gvr.resource + ['.'] + gvr.group;
    SplitCons(gvr.resource, '.', gvr.group);
  }

  function InfoOf(k: Key): ObjInfo {
    ObjInfo(k.name, k.namespace, k.gvr, WriterPath(k))
  }

  /** The leading byte decides: a file starts with a quote exactly when its content was changed by encryption. */
  lemma QuoteMeansEncrypted(backup: Config, a: Archived, nonce: nat)
    requires LawfulJson(backup.json) && FileBytes(backup, a, nonce).Some?
    ensures var bytes := FileBytes(backup, a, nonce).value;
            && |bytes| > 0
            && (bytes[0] == QUOTE <==> bytes != backup.json.marshal(Map(a.obj)))
  {
  }

  /** A JSON string is read as one. */
  ghost predicate LawfulStrings(json: Serializer) {
    forall b: Bytes :: json.unmarshal(Quoted(b)).Some? && json.unmarshal(Quoted(b)).value.Str?
  }

  /** A restore without the encryption configuration of the backup says so. */
  lemma MissingConfigIsReported(backup: Config, restore: Config, a: Archived, nonce: nat)
    requires LawfulJson(backup.json) && LawfulStrings(restore.json) && FileBytes(backup, a, nonce).Some?
    requires FileBytes(backup, a, nonce).value != backup.json.marshal(Map(a.obj))
    requires WellFormed(a.key) && restore.transformers(GroupResource(a.key.gvr.group, a.key.gvr.resource)).None?
    ensures DecodeFile(restore, WriterPath(a.key), FileBytes(backup, a, nonce).value) == Err(NoEncryptionConfig)
  {
    hide WriterPath, ParsePath, IsCrd, ParseGroupResource, Quoted, AuthenticatedData;
    ParseWriterPath(a.key);
  }

  /** The regular entries of the archive agree on what each name holds. */
  predicate Consistent(entries: seq<Entry>) {
    forall e, f | e in entries && f in entries && e.regular && f.regular && e.name == f.name :: e.data == f.data
  }

  predicate Holds(config: Config, e: Entry, info: ObjInfo, obj: Resource) {
    e.regular && !IsFilters(e.name) && DecodeFile(config, e.name, e.data) == Ok((info, obj))
  }

  predicate Readable(config: Config, e: Entry) {
    e.regular ==>
      if IsFilters(e.name) then (Contains(e.name, "filters.json") ==> config.filtersParse(e.data))
      else DecodeFile(config, e.name, e.data).Ok?
  }

  lemma InfoNamesItsFile(config: Config, name: string, data: Bytes)
    requires DecodeFile(config, name, data).Ok?
    ensures DecodeFile(config, name, data).value.0.configPath == name
  {
    hide Unquoted, ParseObject, ParseTypeDir, IsCrd;
  }

  lemma EntryLoads(config: Config, c: Contents, e: Entry)
    ensures LoadEntry(config, c, e).Ok? <==> Readable(config, e)
  {
    hide DecodeFile, Contains, IsFilters, Insert;
  }

  lemma {:induction false} LoadsIffReadable(config: Config, entries: seq<Entry>)
    ensures LoadAll(config, entries).Ok? <==> forall e | e in entries :: Readable(config, e)
  {
    hide Readable, LoadEntry;
    if entries != [] {
      var n := |entries| - 1;
      LoadsIffReadable(config, entries[..n]);
      assert entries == entries[..n] + [entries[n]];
      if LoadAll(config, entries[..n]).Ok? {
        EntryLoads(config, LoadAll(config, entries[..n]).value, entries[n]);
      }
    }
  }

  predicate SomeHolds(config: Config, entries: seq<Entry>, info: ObjInfo, obj: Resource) {
    exists e | e in entries :: Holds(config, e, info, obj)
  }

  lemma SomeHoldsNothing(config: Config, info: ObjInfo, obj: Resource)
    ensures !SomeHolds(config, [], info, obj)
  {
  }

  lemma SomeHoldsSnoc(config: Config, entries: seq<Entry>, info: ObjInfo, obj: Resource)
    requires entries != []
    ensures SomeHolds(config, entries, info, obj) <==>
            SomeHolds(config, entries[..|entries| - 1], info, obj) || Holds(config, entries[|entries| - 1], info, obj)
  {
    hide Holds;
    var init, last := entries[..|entries| - 1], entries[|entries| - 1];
    assert entries == init + [last];
    if SomeHolds(config, entries, info, obj) {
      var e :| e in entries && Holds(config, e, info, obj);
      assert e in init || e == last;
    }
  }

  /** Entries that agree on a name hold one object. */
  lemma HeldOnce(config: Config, entries: seq<Entry>, e: Entry, info: ObjInfo, obj: Resource, other: Resource)
    requires Consistent(entries) && e in entries && Holds(config, e, info, obj)
             && SomeHolds(config, entries, info, other)
    ensures obj == other
  {
    hide DecodeFile, IsFilters;
    var f :| f in entries && Holds(config, f, info, other);
    InfoNamesItsFile(config, e.name, e.data);
    InfoNamesItsFile(config, f.name, f.data);
  }

  /** Where the load stands on one object: it is in its map if and only if some entry so far holds it. */
  ghost predicate Exact(config: Config, c: Contents, entries: seq<Entry>, slot: Slot, info: ObjInfo, obj: Resource) {
    In(c, slot, info, obj) <==> SlotOf(info, obj) == slot && SomeHolds(config, entries, info, obj)
  }

  /** An entry that holds no object changes nothing. */
  lemma EntryIgnored(config: Config, c: Contents, entries: seq<Entry>, slot: Slot, info: ObjInfo, obj: Resource)
    requires entries != [] && Exact(config, c, entries[..|entries| - 1], slot, info, obj)
    requires var last := entries[|entries| - 1];
             LoadEntry(config, c, last).Ok? && (!last.regular || IsFilters(last.name))
    ensures Exact(config, LoadEntry(config, c, entries[|entries| - 1]).value, entries, slot, info, obj)
  {
    hide DecodeFile, IsFilters, SlotOf, SomeHolds, In, LoadEntry;
    FiltersLoadNothing(config, c, entries[|entries| - 1], slot, info, obj);
    SomeHoldsSnoc(config, entries, info, obj);
  }

  /** An entry that holds another object leaves this one alone. */
  lemma EntryOfAnother(config: Config, c: Contents, entries: seq<Entry>, slot: Slot, info: ObjInfo, obj: Resource,
                       info': ObjInfo, obj': Resource)
    requires entries != [] && Exact(config, c, entries[..|entries| - 1], slot, info, obj) && slot != SkippedBuiltin
    requires Holds(config, entries[|entries| - 1], info', obj') && info' != info
    ensures Exact(config, Insert(c, info', obj'), entries, slot, info, obj)
  {
    hide DecodeFile, IsFilters, SlotOf, SomeHolds, In, Insert;
    InsertIn(c, info', obj', slot, info, obj);
    SomeHoldsSnoc(config, entries, info, obj);
  }

  /** An entry that holds this object puts it into its map. */
  lemma EntryOfThis(config: Config, c: Contents, entries: seq<Entry>, slot: Slot, info: ObjInfo, obj: Resource)
    requires entries != [] && Exact(config, c, entries[..|entries| - 1], slot, info, obj) && slot != SkippedBuiltin
    requires Holds(config, entries[|entries| - 1], info, obj)
    ensures Exact(config, Insert(c, info, obj), entries, slot, info, obj)
  {
    hide Holds, SlotOf, SomeHolds, In, Insert;
    InsertIn(c, info, obj, slot, info, obj);
    SomeHoldsSnoc(config, entries, info, obj);
  }

  /** An entry that holds this identity with other content means that no entry holds this content. */
  lemma EntryOfOther(config: Config, c: Contents, entries: seq<Entry>, slot: Slot, info: ObjInfo, obj: Resource,
                     obj': Resource)
    requires entries != [] && Exact(config, c, entries[..|entries| - 1], slot, info, obj) && slot != SkippedBuiltin
    requires Consistent(entries) && Holds(config, entries[|entries| - 1], info, obj') && obj' != obj
    ensures Exact(config, Insert(c, info, obj'), entries, slot, info, obj)
  {
    hide Holds, SlotOf, SomeHolds, In, Insert, Consistent;
    InsertIn(c, info, obj', slot, info, obj);
    SomeHoldsSnoc(config, entries, info, obj);
    if SomeHolds(config, entries, info, obj) {
      HeldOnce(config, entries, entries[|entries| - 1], info, obj', obj);
    }
  }

  /** What a load brings into memory: exactly the objects some entry holds. */
  lemma {:induction false} LoadedExactly(config: Config, entries: seq<Entry>, slot: Slot, info: ObjInfo, obj: Resource)
    requires LoadAll(config, entries).Ok? && Consistent(entries) && slot != SkippedBuiltin
    ensures In(LoadAll(config, entries).value, slot, info, obj) <==>
            SlotOf(info, obj) == slot && SomeHolds(config, entries, info, obj)
  {
    hide DecodeFile, IsFilters, SlotOf, LoadFilters, SomeHolds, Insert;
    if entries == [] {
      SomeHoldsNothing(config, info, obj);
    } else {
      var n := |entries| - 1;
      var c, last := LoadAll(config, entries[..n]).value, entries[n];
      LoadedExactly(config, entries[..n], slot, info, obj);
      if !last.regular || IsFilters(last.name) {
        EntryIgnored(config, c, entries, slot, info, obj);
      } else {
        var (info', obj') := DecodeFile(config, last.name, last.data).value;
        var c' := c.(paths := c.paths + {last.name});
        assert Exact(config, c', entries[..n], slot, info, obj);
        if info' != info {
          EntryOfAnother(config, c', entries, slot, info, obj, info', obj');
        } else if obj' == obj {
          EntryOfThis(config, c', entries, slot, info, obj);
        } else {
          EntryOfOther(config, c', entries, slot, info, obj, obj');
        }
      }
    }
  }

  lemma InsertIn(c: Contents, info': ObjInfo, obj': Resource, slot: Slot, info: ObjInfo, obj: Resource)
    requires slot != SkippedBuiltin
    ensures In(Insert(c, info', obj'), slot, info, obj) <==>
            if SlotOf(info', obj') == slot && info == info' then obj == obj' else In(c, slot, info, obj)
  {
    hide SlotOf;
  }

  lemma FiltersLoadNothing(config: Config, c: Contents, e: Entry, slot: Slot, info: ObjInfo, obj: Resource)
    requires LoadEntry(config, c, e).Ok? && (!e.regular || IsFilters(e.name))
    ensures In(LoadEntry(config, c, e).value, slot, info, obj) <==> In(c, slot, info, obj)
    ensures LoadEntry(config, c, e).value.paths == c.paths
  {
    hide IsFilters, Contains;
  }

  /** The names prune later compares with. */
  lemma {:induction false} PathsLoaded(config: Config, entries: seq<Entry>, p: string)
    requires LoadAll(config, entries).Ok?
    ensures p in LoadAll(config, entries).value.paths <==>
            !IsFilters(p) && exists e | e in entries :: e.regular && e.name == p
  {
    hide DecodeFile, IsFilters, LoadFilters, SlotOf;
    if entries != [] {
      var n := |entries| - 1;
      var c, last := LoadAll(config, entries[..n]).value, entries[n];
      assert entries == entries[..n] + [last];
      PathsLoaded(config, entries[..n], p);
      if !last.regular || IsFilters(last.name) {
        FiltersLoadNothing(config, c, last, Crd, ObjInfo("", "", GVR("", "", ""), ""), map[]);
      }
    }
  }

  /** The selectors prune later gathers by: what the one file named so says, wherever it stands. */
  lemma {:induction false} SelectorsLoaded(config: Config, entries: seq<Entry>, k: nat)
    requires LoadAll(config, entries).Ok? && k <= |entries|
    requires forall j | 0 <= j < |entries| && j != k ::
               entries[j].regular ==> !Contains(entries[j].name, "filters.json")
    ensures LoadAll(config, entries).value.selectors ==
            if k < |entries| && entries[k].regular && Contains(entries[k].name, "filters.json")
            then config.mergeFilters(entries[k].data, []) else []
  {
    hide DecodeFile, Contains;
    if entries != [] {
      var n := |entries| - 1;
      var init, last := entries[..n], entries[n];
      SelectorsLoaded(config, init, if k < n then k else n);
      if Contains(last.name, "filters.json") {
        FiltersJsonIsFilters(last.name);
      }
    }
  }

  lemma FiltersJsonIsFilters(name: string)
    requires Contains(name, "filters.json")
    ensures IsFilters(name)
  {
    var i :| 0 <= i <= |name| && OccursAt(name, "filters.json", i);
    assert "filters.json"[..7] == "filters";
    assert name[i..i + 7] == name[i..i + 12][..7];
    assert OccursAt(name, "filters", i);
  }

  // ---- the whole archive ----

  const FILTERS_FILE := "filters/filters.json"

  /** The tarball of a backup: its object files, the ResourceSet it was made with, once, and directories, in any
      order. */
  ghost predicate TarOf(entries: seq<Entry>, files: map<string, Bytes>, filters: Bytes) {
    && (forall e | e in entries && e.regular ::
          if e.name == FILTERS_FILE then e.data == filters else e.name in files && e.data == files[e.name])
    && (forall p | p in files :: exists e | e in entries :: e.regular && e.name == p)
    && FILTERS_FILE !in files
    && exists k :: FiltersFileAt(entries, k)
  }

  predicate FiltersFileAt(entries: seq<Entry>, k: int) {
    && 0 <= k < |entries| && entries[k].regular && entries[k].name == FILTERS_FILE
    && forall j | 0 <= j < |entries| && j != k && entries[j].regular :: entries[j].name != FILTERS_FILE
  }

  /** No object of the archive is stored under a name that is taken for the ResourceSet's. */
  ghost predicate OneFiltersFile(files: map<string, Bytes>) {
    forall p | p in files :: !Contains(p, "filters.json")
  }

  /** What the API server guarantees of the objects in the archive, and that no encryption key was lost. */
  ghost predicate Sound(backup: Config, restore: Config, held: map<string, Archived>, files: map<string, Bytes>) {
    && Undoes(backup, restore) && held.Keys == files.Keys
    && forall p | p in held :: SoundFile(backup, held[p], p, files[p])
  }

  ghost predicate SoundFile(backup: Config, a: Archived, path: string, data: Bytes) {
    && path == WriterPath(a.key) && StandsFor(backup, a, data)
    && WellFormed(a.key) && a.key.gvr == GVROf(a.typ)
    && (a.typ.namespaced <==> a.key.namespace != "")
    && (IsCrd(a.typ.name) ==> !a.typ.namespaced)
  }

  lemma SoundFileDecodes(backup: Config, restore: Config, a: Archived, path: string, data: Bytes)
    requires Undoes(backup, restore) && SoundFile(backup, a, path, data)
    ensures DecodeFile(restore, path, data) == Ok((InfoOf(a.key), a.obj))
  {
    var nonce: nat :| FileBytes(backup, a, nonce) == Some(data);
    FileRoundTrip(backup, restore, a, nonce);
  }

  lemma FiltersFileIsFilters()
    ensures IsFilters(FILTERS_FILE) && Contains(FILTERS_FILE, "filters.json")
  {
    assert OccursAt(FILTERS_FILE, "filters", 0);
    assert FILTERS_FILE[8..20] == "filters.json";
    assert OccursAt(FILTERS_FILE, "filters.json", 8);
  }

  /** What was loaded is what was archived. */
  ghost predicate HoldsExactly(c: Contents, held: map<string, Archived>) {
    && c.paths == (set p | p in held && !IsFilters(p))
    && forall slot, info, obj | slot != SkippedBuiltin ::
      In(c, slot, info, obj) <==> SlotOf(info, obj) == slot && InArchive(held, info, obj)
  }

  /** Archive round trip: a backup's tarball loads, and what is loaded is exactly what was archived, object by
      object under its own identity, minus builtin roles and every object whose path contains "filters"; and
      the selectors loaded are those of the ResourceSet the backup was made with. */
  lemma ArchiveRoundTrip(backup: Config, restore: Config, held: map<string, Archived>, files: map<string, Bytes>,
                         filters: Bytes, entries: seq<Entry>)
    requires Sound(backup, restore, held, files) && TarOf(entries, files, filters)
    requires forall p | p in files && Contains(p, "filters.json") :: restore.filtersParse(files[p])
    requires restore.filtersParse(filters)
    ensures LoadAll(restore, entries).Ok? && HoldsExactly(LoadAll(restore, entries).value, held)
    ensures OneFiltersFile(files) ==> LoadAll(restore, entries).value.selectors == restore.mergeFilters(filters, [])
  {
    hide SlotOf, SoundFile, DecodeFile, IsFilters, Undoes, In, Contains, FiltersFileAt, OneFiltersFile, LoadAll;
    FiltersFileIsFilters();
    forall e | e in entries && e.regular && e.name != FILTERS_FILE
      ensures e.name in held && DecodeFile(restore, e.name, e.data) == Ok((InfoOf(held[e.name].key), held[e.name].obj))
    {
      SoundFileDecodes(backup, restore, held[e.name], e.name, e.data);
    }
    assert forall e | e in entries :: Readable(restore, e);
    LoadsIffReadable(restore, entries);
    var c := LoadAll(restore, entries).value;
    forall p ensures p in c.paths <==> p in held && !IsFilters(p) {
      PathsLoaded(restore, entries, p);
    }
    forall slot, info, obj | slot != SkippedBuiltin
      ensures In(c, slot, info, obj) <==> SlotOf(info, obj) == slot && InArchive(held, info, obj)
    {
      LoadedExactly(restore, entries, slot, info, obj);
      HeldIffInArchive(restore, held, entries, info, obj);
    }
    if OneFiltersFile(files) {
      TarSelectors(restore, files, filters, entries);
    }
  }

  lemma TarSelectors(restore: Config, files: map<string, Bytes>, filters: Bytes, entries: seq<Entry>)
    requires TarOf(entries, files, filters) && OneFiltersFile(files) && LoadAll(restore, entries).Ok?
    ensures LoadAll(restore, entries).value.selectors == restore.mergeFilters(filters, [])
  {
    hide LoadAll, Contains;
    FiltersFileIsFilters();
    var k :| FiltersFileAt(entries, k);
    assert entries[k] in entries;
    forall j | 0 <= j < |entries| && j != k && entries[j].regular ensures !Contains(entries[j].name, "filters.json") {
      assert entries[j] in entries && entries[j].name in files;
    }
    SelectorsLoaded(restore, entries, k);
  }

  /** The archive holds the object, under a path the loader does not take for the ResourceSet. */
  predicate InArchive(held: map<string, Archived>, info: ObjInfo, obj: Resource) {
    exists p | p in held :: !IsFilters(p) && info == InfoOf(held[p].key) && obj == held[p].obj
  }

  lemma HeldIffInArchive(restore: Config, held: map<string, Archived>, entries: seq<Entry>, info: ObjInfo,
                         obj: Resource)
    requires IsFilters(FILTERS_FILE)
    requires forall e | e in entries && e.regular && e.name != FILTERS_FILE ::
               e.name in held && DecodeFile(restore, e.name, e.data) == Ok((InfoOf(held[e.name].key), held[e.name].obj))
    requires forall p | p in held :: exists e | e in entries :: e.regular && e.name == p
    requires FILTERS_FILE !in held
    ensures InArchive(held, info, obj) <==> SomeHolds(restore, entries, info, obj)
  {
    hide DecodeFile, IsFilters, InfoOf;
    if InArchive(held, info, obj) {
      var p :| p in held && !IsFilters(p) && info == InfoOf(held[p].key) && obj == held[p].obj;
      var e :| e in entries && e.regular && e.name == p;
      assert Holds(restore, e, info, obj);
    }
    if e :| e in entries && Holds(restore, e, info, obj) {
      assert e.name in held;
    }
  }

  /** The exception is real: any type whose name contains "filters", such as Istio's envoyfilters, is
      archived but never loaded, and its path is unknown to prune. */
  lemma FiltersAreDropped(k: Key, g: nat)
    requires OccursAt(k.gvr.resource, "filters", g)
    ensures IsFilters(WriterPath(k)) && IsFilters(PrunePath(k))
  {
    assert OccursAt(WriterPath(k), "filters", g);
    assert OccursAt(PrunePath(k), "filters", g);
  }
}
