/** How the restore reads metadata.ownerReferences: which entries it waits for, and how it
    rewrites their uids against the live cluster. */
module OwnerRefs {
  import opened Results
  import opened GoStrings
  import opened Kube
  import opened ArchivePath

  datatype GVK = GVK(group: string, version: string, kind: string)

  datatype Mapping = Mapping(resource: string, namespaced: bool)

  /** ResourceForGVK: discovery as it stands during the restore. */
  type RestMapper = map<GVK, Mapping>

  /** The object a reference points at; a namespaced owner lives in its dependent's namespace. */
  datatype Owner = Owner(key: Key, namespaced: bool)

  function OwnerOf(ref: OwnerRef, mapper: RestMapper, ns: string): Option<Owner> {
    if ref.NotAMap? then None
    else
      match ParseGroupVersion(ref.apiVersion)
      case None => None
      case Some(gv) =>
        var gvk := GVK(gv.group, gv.version, ref.kind);
        if gvk !in mapper then None
        else
          var m := mapper[gvk];
          Some(Owner(Key(GVR(gv.group, gv.version, m.resource), if m.namespaced then ns else "", ref.name),
                     m.namespaced))
  }

  /** Builtin GlobalRoles and RoleTemplates are never restored, so nothing may wait for one. */
  predicate RoleKind(kind: string) {
    EqualFold(kind, "globalrole") || EqualFold(kind, "roletemplate")
  }

  /** An entry that can hold its object back: resolvable and not a role kind. */
  function Eligible(ref: OwnerRef, mapper: RestMapper, ns: string): Option<Owner> {
    if ref.OwnerRef? && RoleKind(ref.kind) then None else OwnerOf(ref, mapper, ns)
  }

  /** ... and not a cluster-scoped owner that an earlier step restored. */
  predicate Counts(owner: Option<Owner>, created: set<string>) {
    owner.Some? && (owner.value.namespaced || OwnerPath(owner.value.key) !in created)
  }

  /** The owner paths an object waits for, with repetitions, in reference order. */
  function CountedOwners(refs: seq<OwnerRef>, mapper: RestMapper, ns: string, created: set<string>): seq<string> {
    if refs == [] then []
    else
      var n := |refs| - 1;
      var owner := Eligible(refs[n], mapper, ns);
      CountedOwners(refs[..n], mapper, ns, created) + if Counts(owner, created) then [OwnerPath(owner.value.key)]
      else []
  }

  lemma CountedOwnersSnoc(refs: seq<OwnerRef>, k: nat, mapper: RestMapper, ns: string, created: set<string>)
    requires k < |refs|
    ensures var owner := Eligible(refs[k], mapper, ns);
            CountedOwners(refs[..k + 1], mapper, ns, created) ==
            if Counts(owner, created) then CountedOwners(refs[..k], mapper, ns, created) + [OwnerPath(owner.value.key)]
            else CountedOwners(refs[..k], mapper, ns, created)
  {
    assert refs[..k + 1][..k] == refs[..k];
  }

  predicate HasRejected(refs: seq<OwnerRef>, mapper: RestMapper, ns: string) {
    exists i | 0 <= i < |refs| :: Eligible(refs[i], mapper, ns).None?
  }

  lemma HasRejectedSnoc(refs: seq<OwnerRef>, k: nat, mapper: RestMapper, ns: string)
    requires k < |refs|
    ensures HasRejected(refs[..k + 1], mapper, ns) <==>
              HasRejected(refs[..k], mapper, ns) || Eligible(refs[k], mapper, ns).None?
  {
    var init, more := refs[..k], refs[..k + 1];
    assert more == init + [refs[k]];
    if HasRejected(init, mapper, ns) {
      var i :| 0 <= i < k && Eligible(init[i], mapper, ns).None?;
      assert more[i] == init[i];
    }
    if Eligible(refs[k], mapper, ns).None? {
      assert more[k] == refs[k];
    }
    if HasRejected(more, mapper, ns) {
      var i :| 0 <= i < k + 1 && Eligible(more[i], mapper, ns).None?;
      assert i < k ==> more[i] == init[i];
    }
  }

  function RefsOf(m: Manifest): seq<OwnerRef> {
    if m.ownerRefs.Some? then m.ownerRefs.value else []
  }

  /** Every eligible owner is counted or was created earlier. */
  lemma {:induction false} EligibleOwnersAccounted(refs: seq<OwnerRef>, mapper: RestMapper, ns: string,
                                                   created: set<string>, i: nat)
    requires i < |refs| && Eligible(refs[i], mapper, ns).Some?
    ensures var path := OwnerPath(Eligible(refs[i], mapper, ns).value.key);
            path in CountedOwners(refs, mapper, ns, created) || path in created
    decreases |refs|
  {
    if i < |refs| - 1 {
      EligibleOwnersAccounted(refs[..|refs| - 1], mapper, ns, created, i);
    }
  }

  /** ... and nothing else is counted. */
  lemma {:induction false} CountedOwnersAreEligible(refs: seq<OwnerRef>, mapper: RestMapper, ns: string,
                                                    created: set<string>, o: string)
    requires o in CountedOwners(refs, mapper, ns, created)
    ensures exists i | 0 <= i < |refs| ::
              && Counts(Eligible(refs[i], mapper, ns), created)
              && OwnerPath(Eligible(refs[i], mapper, ns).value.key) == o
    decreases |refs|
  {
    var n := |refs| - 1;
    if o in CountedOwners(refs[..n], mapper, ns, created) {
      CountedOwnersAreEligible(refs[..n], mapper, ns, created, o);
      var i :| 0 <= i < n && Counts(Eligible(refs[..n][i], mapper, ns), created)
               && OwnerPath(Eligible(refs[..n][i], mapper, ns).value.key) == o;
      assert refs[i] == refs[..n][i];
    } else {
      assert Counts(Eligible(refs[n], mapper, ns), created);
    }
  }

  // ---- which object a reference names ----

  predicate NamesOwner(ref: OwnerRef) {
    ref.OwnerRef? && ref.apiVersion != "" && ref.kind != ""
  }

  /** The reference spells the type of `k`, by the kind that discovery has for it, and its name; `k` lies in the
      dependent's namespace if its type is namespaced, and in none otherwise. */
  predicate Refers(ref: OwnerRef, mapper: RestMapper, ns: string, k: Key) {
    && ref.OwnerRef? && ref.name == k.name && Spells(ref.apiVersion, k.gvr.group, k.gvr.version)
    && var gvk := GVK(k.gvr.group, k.gvr.version, ref.kind);
    && gvk in mapper && mapper[gvk].resource == k.gvr.resource
    && k.namespace == if mapper[gvk].namespaced then ns else ""
  }

  lemma OwnerOfIff(ref: OwnerRef, mapper: RestMapper, ns: string, k: Key)
    ensures (OwnerOf(ref, mapper, ns).Some? && OwnerOf(ref, mapper, ns).value.key == k) <==> Refers(ref, mapper, ns, k)
    ensures Refers(ref, mapper, ns, k) ==>
              OwnerOf(ref, mapper, ns).value.namespaced ==
              mapper[GVK(k.gvr.group, k.gvr.version, ref.kind)].namespaced
  {
    hide ParseGroupVersion, Spells;
    if ref.OwnerRef? {
      ParseGroupVersionIff(ref.apiVersion, k.gvr.group, k.gvr.version);
    }
  }

  /** An object waits for `k` because of this reference: it names `k`, which is not a role, and a cluster-scoped
      one is still to be created. */
  predicate Awaits(ref: OwnerRef, mapper: RestMapper, ns: string, created: set<string>, k: Key) {
    && Refers(ref, mapper, ns, k)
    && ToLower(ref.kind) != "globalrole" && ToLower(ref.kind) != "roletemplate"
    && (mapper[GVK(k.gvr.group, k.gvr.version, ref.kind)].namespaced || OwnerPath(k) !in created)
  }

  lemma RoleKindIff(kind: string)
    ensures RoleKind(kind) <==> ToLower(kind) == "globalrole" || ToLower(kind) == "roletemplate"
  {
    assert ToLower("globalrole") == "globalrole" && ToLower("roletemplate") == "roletemplate";
  }

  lemma CountsIff(ref: OwnerRef, mapper: RestMapper, ns: string, created: set<string>, k: Key)
    ensures (Counts(Eligible(ref, mapper, ns), created) && Eligible(ref, mapper, ns).value.key == k) <==>
            Awaits(ref, mapper, ns, created, k)
  {
    hide ParseGroupVersion, Spells, RoleKind, OwnerPath, ToLower;
    OwnerOfIff(ref, mapper, ns, k);
    if ref.OwnerRef? {
      RoleKindIff(ref.kind);
    }
  }

  /** The paths an object waits for are those of the objects its references make it wait for. */
  lemma WaitsForIff(refs: seq<OwnerRef>, mapper: RestMapper, ns: string, created: set<string>, o: string)
    ensures o in CountedOwners(refs, mapper, ns, created) <==>
            exists ref, k | ref in refs :: Awaits(ref, mapper, ns, created, k) && o == OwnerPath(k)
  {
    hide Awaits, Eligible, OwnerPath;
    if o in CountedOwners(refs, mapper, ns, created) {
      CountedOwnersAreEligible(refs, mapper, ns, created, o);
      var i :| 0 <= i < |refs| && Counts(Eligible(refs[i], mapper, ns), created)
               && OwnerPath(Eligible(refs[i], mapper, ns).value.key) == o;
      CountsIff(refs[i], mapper, ns, created, Eligible(refs[i], mapper, ns).value.key);
    }
    if ref, k :| ref in refs && Awaits(ref, mapper, ns, created, k) && o == OwnerPath(k) {
      var i :| 0 <= i < |refs| && refs[i] == ref;
      CountsIff(ref, mapper, ns, created, k);
      CountedIsListed(refs, mapper, ns, created, i);
    }
  }

  lemma {:induction false} CountedIsListed(refs: seq<OwnerRef>, mapper: RestMapper, ns: string, created: set<string>,
                                           i: nat)
    requires i < |refs| && Counts(Eligible(refs[i], mapper, ns), created)
    ensures OwnerPath(Eligible(refs[i], mapper, ns).value.key) in CountedOwners(refs, mapper, ns, created)
    decreases |refs|
  {
    hide Eligible, OwnerPath;
    if i < |refs| - 1 {
      CountedIsListed(refs[..|refs| - 1], mapper, ns, created, i);
    }
  }

  /** Rejected: it names nothing, or a role. */
  ghost predicate Rejected(ref: OwnerRef, mapper: RestMapper, ns: string) {
    || (forall k :: !Refers(ref, mapper, ns, k))
    || (ref.OwnerRef? && (ToLower(ref.kind) == "globalrole" || ToLower(ref.kind) == "roletemplate"))
  }

  lemma RejectedIff(ref: OwnerRef, mapper: RestMapper, ns: string)
    ensures Eligible(ref, mapper, ns).None? <==> Rejected(ref, mapper, ns)
  {
    hide ParseGroupVersion, Spells, RoleKind, ToLower;
    if ref.OwnerRef? {
      RoleKindIff(ref.kind);
    }
    if OwnerOf(ref, mapper, ns).Some? {
      OwnerOfIff(ref, mapper, ns, OwnerOf(ref, mapper, ns).value.key);
    } else {
      forall k ensures !Refers(ref, mapper, ns, k) {
        OwnerOfIff(ref, mapper, ns, k);
      }
    }
  }

  datatype RefError = OwnerNotFound | Unresolvable

  /** One round of updateOwnerRefs: a reference without apiVersion or kind is left alone. */
  function ResolveRef(ref: OwnerRef, c: Cluster, mapper: RestMapper, ns: string): (r: Result<OwnerRef, RefError>) {
    if ref.NotAMap? || ref.apiVersion == "" || ref.kind == "" then Ok(ref)
    else
      match OwnerOf(ref, mapper, ns)
      case None => Err(Unresolvable)
      case Some(owner) =>
        if owner.key in c.objects then Ok(ref.(uid := c.objects[owner.key].uid)) else Err(OwnerNotFound)
  }

  /** All of updateOwnerRefs: the first error wins. */
  function ResolveRefs(refs: seq<OwnerRef>, c: Cluster, mapper: RestMapper, ns: string)
    : (r: Result<seq<OwnerRef>, RefError>)
    ensures r.Ok? ==> |r.value| == |refs|
    ensures r.Ok? ==> forall i | 0 <= i < |refs| :: ResolveRef(refs[i], c, mapper, ns) == Ok(r.value[i])
    ensures r.Err? ==> exists i | 0 <= i < |refs| :: ResolveRef(refs[i], c, mapper, ns).Err?
    decreases |refs|
  {
    if refs == [] then Ok([])
    else
      var n := |refs| - 1;
      match ResolveRefs(refs[..n], c, mapper, ns)
      case Err(e) => 
        assert forall i | 0 <= i < n :: refs[..n][i] == refs[i];
        Err(e)
      case Ok(init) =>
        match ResolveRef(refs[n], c, mapper, ns)
        case Err(e) => Err(e)
        case Ok(last) => Ok(init + [last])
  }

  /** A reference that carries the uid of an object that is live now. */
  predicate Live(ref: OwnerRef, c: Cluster, mapper: RestMapper, ns: string) {
    ref.NotAMap? || ref.apiVersion == "" || ref.kind == "" ||
    var owner := OwnerOf(ref, mapper, ns);
    owner.Some? && owner.value.key in c.objects && ref.uid == c.objects[owner.value.key].uid
  }

  lemma ResolvedIsLive(ref: OwnerRef, c: Cluster, mapper: RestMapper, ns: string)
    requires ResolveRef(ref, c, mapper, ns).Ok?
    ensures Live(ResolveRef(ref, c, mapper, ns).value, c, mapper, ns)
  {
  }

  /** What becomes of a reference that names `k`: it gets the uid `k` has now, or its object fails. */
  lemma ResolveRefTo(ref: OwnerRef, c: Cluster, mapper: RestMapper, ns: string, k: Key)
    requires NamesOwner(ref) && Refers(ref, mapper, ns, k)
    ensures ResolveRef(ref, c, mapper, ns) ==
            if k in c.objects then Ok(ref.(uid := c.objects[k].uid)) else Err(OwnerNotFound)
    ensures Live(ref, c, mapper, ns) <==> k in c.objects && ref.uid == c.objects[k].uid
  {
    hide OwnerOf;
    OwnerOfIff(ref, mapper, ns, k);
  }

  /** ... and of one that names nothing. */
  lemma ResolveRefToNothing(ref: OwnerRef, c: Cluster, mapper: RestMapper, ns: string)
    requires NamesOwner(ref) && forall k :: !Refers(ref, mapper, ns, k)
    ensures ResolveRef(ref, c, mapper, ns) == Err(Unresolvable) && !Live(ref, c, mapper, ns)
  {
    hide OwnerOf, Refers;
    if OwnerOf(ref, mapper, ns).Some? {
      OwnerOfIff(ref, mapper, ns, OwnerOf(ref, mapper, ns).value.key);
    }
  }

  /** Each reference that names an object carries the uid this has now, and the others are as they were. */
  ghost predicate Resolved(before: seq<OwnerRef>, after: seq<OwnerRef>, c: Cluster, mapper: RestMapper, ns: string) {
    && |after| == |before|
    && (forall j | 0 <= j < |before| && !NamesOwner(before[j]) :: after[j] == before[j])
    && forall j, k | 0 <= j < |before| && NamesOwner(before[j]) && Refers(before[j], mapper, ns, k) ::
      k in c.objects && after[j] == before[j].(uid := c.objects[k].uid)
  }

  lemma ResolvedRefs(before: seq<OwnerRef>, c: Cluster, mapper: RestMapper, ns: string)
    requires ResolveRefs(before, c, mapper, ns).Ok?
    ensures Resolved(before, ResolveRefs(before, c, mapper, ns).value, c, mapper, ns)
  {
    hide OwnerOf, Refers, ResolveRefs;
    var after := ResolveRefs(before, c, mapper, ns).value;
    forall j, k | 0 <= j < |before| && NamesOwner(before[j]) && Refers(before[j], mapper, ns, k)
      ensures k in c.objects && after[j] == before[j].(uid := c.objects[k].uid)
    {
      ResolveRefTo(before[j], c, mapper, ns, k);
    }
  }

  /** The in-place rewrite of the reference slice. On an error the slice is partly rewritten. */
  method UpdateOwnerRefs(refs: array<OwnerRef>, c: Cluster, mapper: RestMapper, ns: string)
    returns (err: Option<RefError>)
    modifies refs
    ensures match ResolveRefs(old(refs[..]), c, mapper, ns)
            case Ok(resolved) => err == None && refs[..] == resolved
            case Err(e) => err == Some(e)
    ensures err == None ==> Resolved(old(refs[..]), refs[..], c, mapper, ns)
  {
    hide OwnerOf, Resolved;
    ghost var before := refs[..];
    for ind := 0 to refs.Length
      invariant ResolveRefs(before[..ind], c, mapper, ns) == Ok(refs[..ind])
      invariant forall j | ind <= j < refs.Length :: refs[j] == before[j]
    {
      assert before[..ind + 1][..ind] == before[..ind];
      var ref := refs[ind];
      var skip := ref.NotAMap? || ref.apiVersion == "" || ref.kind == "";
      if !skip {
        var owner := OwnerOf(ref, mapper, ns);
        if owner.None? {
          ErrorPersists(before, ind + 1, c, mapper, ns);
          return Some(Unresolvable);
        }
        var live := Get(c, owner.value.key);
        if live.Err? {
          ErrorPersists(before, ind + 1, c, mapper, ns);
          return Some(OwnerNotFound);
        }
        refs[ind] := ref.(uid := live.value.uid);
      }
      assert refs[..ind + 1] == refs[..ind] + [refs[ind]];
    }
    assert before[..refs.Length] == before && refs[..refs.Length] == refs[..];
    ResolvedRefs(before, c, mapper, ns);
    return None;
  }

  lemma ErrorPersists(refs: seq<OwnerRef>, k: nat, c: Cluster, mapper: RestMapper, ns: string)
    requires k <= |refs| && ResolveRefs(refs[..k], c, mapper, ns).Err?
    ensures ResolveRefs(refs, c, mapper, ns) == ResolveRefs(refs[..k], c, mapper, ns)
    decreases |refs|
  {
    if k < |refs| {
      assert refs[..|refs| - 1][..k] == refs[..k];
      ErrorPersists(refs[..|refs| - 1], k, c, mapper, ns);
    } else {
      assert refs[..k] == refs;
    }
  }
}
