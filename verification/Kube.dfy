/** The part of the Kubernetes API server the operator talks to: named objects with a uid and a
    resource version, created, replaced and deleted one call at a time. */
module Kube {
  import opened Results
  import opened GoStrings

  datatype GVR = GVR(group: string, version: string, resource: string)

  datatype GroupVersion = GroupVersion(group: string, version: string)

  /** schema.ParseGroupVersion */
  function ParseGroupVersion(apiVersion: string): Option<GroupVersion> {
    if apiVersion == "" || apiVersion == "/" then Some(GroupVersion("", ""))
    else
      var parts := Split(apiVersion, '/');
      if |parts| == 1 then Some(GroupVersion("", apiVersion))
      else if |parts| == 2 then Some(GroupVersion(parts[0], parts[1]))
      else None
  }

  /** How a group and a version are spelled; the core group may go without its slash. */
  predicate Spells(apiVersion: string, group: string, version: string) {
    && '/' !in group && '/' !in version
    && (apiVersion == group + "/" + version || (group == "" && apiVersion == version))
  }

  lemma ParseGroupVersionIff(apiVersion: string, group: string, version: string)
    ensures ParseGroupVersion(apiVersion) == Some(GroupVersion(group, version)) <==>
            Spells(apiVersion, group, version)
  {
    var i := IndexOf(apiVersion, '/');
    if i == |apiVersion| {
      SplitNone(apiVersion, '/');
      assert '/' in group + "/" + version;
    } else {
      var head, tail := apiVersion[..i], apiVersion[i + 1..];
      assert apiVersion == head + ['/'] + tail;
      SplitCons(head, '/', tail);
      SplitOneIff(tail, '/');
      if Spells(apiVersion, group, version) {
        assert apiVersion == group + ['/'] + version;
        SplitCons(group, '/', version);
        SplitNone(version, '/');
      }
    }
  }

  /** Where an object lives; the namespace is "" for a cluster-scoped object. */
  datatype Key = Key(gvr: GVR, namespace: string, name: string)

  /** One entry of metadata.ownerReferences. Go reads these from untyped JSON, so an entry need not be a map. */
  datatype OwnerRef =
    | NotAMap
    | OwnerRef(apiVersion: string, kind: string, name: string, uid: nat)

  /** What a client writes. `payload` stands for every field the restore neither reads nor changes. */
  datatype Manifest = Manifest(
    kind: string,
    secretType: Option<string>,
    ownerRefs: Option<seq<OwnerRef>>,
    finalizers: set<string>,
    specFinalizers: bool,
    payload: string)

  datatype Obj = Obj(uid: nat, rv: nat, terminating: bool, manifest: Manifest)

  /** `clock` is the source of fresh uids and resource versions. */
  datatype Cluster = Cluster(objects: map<Key, Obj>, clock: nat)

  datatype ApiError = NotFound | AlreadyExists | Conflict | OtherError

  predicate Removable(m: Manifest) {
    m.finalizers == {} && !m.specFinalizers
  }

  function Get(c: Cluster, k: Key): Result<Obj, ApiError> {
    if k in c.objects then Ok(c.objects[k]) else Err(NotFound)
  }

  function Create(c: Cluster, k: Key, m: Manifest): Result<Cluster, ApiError> {
    if k in c.objects then Err(AlreadyExists)
    else Ok(Cluster(c.objects[k := Obj(c.clock, c.clock, false, m)], c.clock + 1))
  }

  /** Optimistic replace: the uid and the deletion mark stay the server's. A terminating object
      whose last finalizer goes away disappears. */
  function Update(c: Cluster, k: Key, m: Manifest, rv: nat): Result<Cluster, ApiError> {
    if k !in c.objects then Err(NotFound)
    else if c.objects[k].rv != rv then Err(Conflict)
    else if c.objects[k].terminating && Removable(m) then Ok(Cluster(c.objects - {k}, c.clock + 1))
    else Ok(Cluster(c.objects[k := c.objects[k].(rv := c.clock, manifest := m)], c.clock + 1))
  }

  function Delete(c: Cluster, k: Key): Result<Cluster, ApiError> {
    if k !in c.objects then Err(NotFound)
    else if Removable(c.objects[k].manifest) then Ok(Cluster(c.objects - {k}, c.clock + 1))
    else Ok(Cluster(c.objects[k := c.objects[k].(rv := c.clock, terminating := true)], c.clock + 1))
  }

  /** Every version was handed out before now. */
  ghost predicate Fresher(c: Cluster) {
    forall k | k in c.objects :: c.objects[k].rv < c.clock
  }
}
