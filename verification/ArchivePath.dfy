/** How an object's identity is spelled as a path inside a backup archive, and read back.
    Three places of the program build the path and one parses it. */
module ArchivePath {
  import opened Results
  import opened GoStrings
  import opened Kube

  const EXTENSION := ".json"

  /** What the loader knows of an archived object (type objInfo). */
  datatype ObjInfo = ObjInfo(name: string, namespace: string, gvr: GVR, configPath: string)

  function KeyOf(info: ObjInfo): Key {
    Key(info.gvr, info.namespace, info.name)
  }

  /** resource.group#version */
  function TypeDir(gvr: GVR): string {
    gvr.resource + "." + gvr.group + "#" + gvr.version
  }

  /** filepath.Base of a path that does not end in a separator. */
  function Base(path: string): string
    decreases |path|
  {
    var i := IndexOf(path, '/');
    if i == |path| then path else Base(path[i + 1..])
  }

  /** The file WriteBackupObjects writes, relative to the backup directory. */
  function WriterPath(k: Key): string {
    Join(Join(TypeDir(k.gvr), k.namespace), Base(k.name + EXTENSION))
  }

  /** The key prune looks up in the loaded archive. */
  function PrunePath(k: Key): string {
    Join(Join(TypeDir(k.gvr), k.namespace), k.name + EXTENSION)
  }

  /** The path generateDependencyGraph expects an owner under. */
  function OwnerPath(k: Key): string {
    if k.namespace == "" then Join(TypeDir(k.gvr), k.name + EXTENSION)
    else Join(TypeDir(k.gvr), Join(k.namespace, k.name + EXTENSION))
  }

  /** The authenticated data the writer binds a ciphertext to. */
  function WriterAAD(k: Key): string {
    if k.namespace == "" then k.name else k.namespace + "#" + k.name
  }

  datatype ParseError = Malformed

  /** The part of a type an encryption configuration is keyed by. */
  datatype GroupResource = GroupResource(group: string, resource: string)

  /** schema.ParseGroupResource cuts at the first dot. */
  function ParseGroupResource(gr: string): GroupResource {
    var parts := SplitOnce(gr, '.');
    GroupResource(if |parts| > 1 then parts[1] else "", parts[0])
  }

  /** getGVR; the index panic on a directory without '#' is an error here. */
  function ParseTypeDir(dir: string): Result<GVR, ParseError> {
    var parts := Split(dir, '#');
    if |parts| < 2 then Err(Malformed)
    else
      var version := parts[1];
      var resourceGroup := SplitOnce(parts[0], '.');
      var resource := TrimSuffix(resourceGroup[0], ".");
      var group := if |resourceGroup| > 1 then resourceGroup[1] else "";
      var gr := ParseGroupResource(resource + "." + group);
      Ok(GVR(gr.group, version, gr.resource))
  }

  /** What loadDataFromFile derives from a tar entry's name: its identity and the authenticated data. */
  datatype Parsed = Parsed(info: ObjInfo, aad: string)

  function ParsePath(path: string): Result<Parsed, ParseError> {
    var parts := Split(path, '/');
    if |parts| == 1 then Err(Malformed)
    else
      match ParseTypeDir(parts[0])
      case Err(e) => Err(e)
      case Ok(gvr) =>
        if |parts| == 2 then
          var name := TrimSuffix(parts[1], EXTENSION);
          Ok(Parsed(ObjInfo(name, "", gvr, path), name))
        else
          var name := TrimSuffix(parts[2], EXTENSION);
          Ok(Parsed(ObjInfo(name, parts[1], gvr, path), parts[1] + "#" + name))
  }

  /** The API server's naming rules, as far as the path format depends on them. */
  predicate WellFormed(k: Key) {
    && '.' !in k.gvr.resource && '#' !in k.gvr.resource && '/' !in k.gvr.resource
    && '#' !in k.gvr.group && '/' !in k.gvr.group
    && '#' !in k.gvr.version && '/' !in k.gvr.version
    && '/' !in k.namespace && '/' !in k.name
  }

  lemma ParseTypeDirOfTypeDir(gvr: GVR)
    requires '.' !in gvr.resource && '#' !in gvr.resource
    requires '#' !in gvr.group && '#' !in gvr.version
    ensures ParseTypeDir(TypeDir(gvr)) == Ok(gvr)
  {
    var head := gvr.resource + "." + gvr.group;
    assert TypeDir(gvr) == head + ['#'] + gvr.version;
    SplitCons(head, '#', gvr.version);
    SplitNone(gvr.version, '#');
    assert head == gvr.resource + ['.'] + gvr.group;
    SplitCons(gvr.resource, '.', gvr.group);
    NoSuffix(gvr.resource, '.');
  }

  /** The three spellings of a path agree, so prune and the dependency graph look up what the writer wrote. */
  lemma PathsAgree(k: Key)
    requires '/' !in k.name
    ensures WriterPath(k) == PrunePath(k) == OwnerPath(k)
  {
    var file := k.name + EXTENSION;
    assert '/' !in file;
    IndexOfAbsent(file, '/');
    assert k.namespace != "" ==>
      TypeDir(k.gvr) + "/" + k.namespace + "/" + file == TypeDir(k.gvr) + "/" + (k.namespace + "/" + file);
  }

  lemma SplitWriterPath(k: Key)
    requires WellFormed(k)
    ensures Split(WriterPath(k), '/') ==
            if k.namespace == "" then [TypeDir(k.gvr), k.name + EXTENSION]
            else [TypeDir(k.gvr), k.namespace, k.name + EXTENSION]
  {
    PathsAgree(k);
    var dir, file := TypeDir(k.gvr), k.name + EXTENSION;
    assert '/' !in dir && '/' !in file;
    SplitNone(file, '/');
    if k.namespace == "" {
      assert WriterPath(k) == dir + ['/'] + file;
      SplitCons(dir, '/', file);
    } else {
      var rest := k.namespace + ['/'] + file;
      assert WriterPath(k) == dir + ['/'] + rest;
      SplitCons(dir, '/', rest);
      SplitCons(k.namespace, '/', file);
    }
  }

  /** The parser undoes the printer, authenticated data included. */
  lemma ParseWriterPath(k: Key)
    requires WellFormed(k)
    ensures ParsePath(WriterPath(k)) ==
            Ok(Parsed(ObjInfo(k.name, k.namespace, k.gvr, WriterPath(k)), WriterAAD(k)))
  {
    SplitWriterPath(k);
    ParseTypeDirOfTypeDir(k.gvr);
    TrimAppended(k.name, EXTENSION);
  }

  /** No two objects share an archive path. */
  lemma WriterPathInjective(k: Key, l: Key)
    requires WellFormed(k) && WellFormed(l) && WriterPath(k) == WriterPath(l)
    ensures k == l
  {
    ParseWriterPath(k);
    ParseWriterPath(l);
  }

  /** What a path looks like, as in "serviceaccounts.#v1/cattle-system/cattle.json". */
  lemma PathSpelled(k: Key)
    requires '/' !in k.name
    ensures WriterPath(k) ==
            k.gvr.resource + "." + k.gvr.group + "#" + k.gvr.version + "/"
            + (if k.namespace == "" then "" else k.namespace + "/") + k.name + ".json"
  {
    PathsAgree(k);
  }

  /** The authenticated data tell the objects of a type apart, so no ciphertext passes for another's. */
  lemma AuthenticatedDataInjective(k: Key, l: Key)
    requires k.gvr == l.gvr && (k.namespace == "" <==> l.namespace == "")
    requires '#' !in k.namespace && '#' !in l.namespace && WriterAAD(k) == WriterAAD(l)
    ensures k == l
  {
    if k.namespace != "" {
      assert WriterAAD(k) == k.namespace + ['#'] + k.name && WriterAAD(l) == l.namespace + ['#'] + l.name;
      SplitCons(k.namespace, '#', k.name);
      SplitCons(l.namespace, '#', l.name);
    }
  }
}
