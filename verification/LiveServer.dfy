/** The API server as the collector sees it while it holds a given cluster state. */
module LiveServer {
  import opened Kube
  import opened ArchivePath
  import opened Selection
  import opened ArchiveCodec
  import opened Prune

  type Labels = Manifest -> map<string, string>

  function ItemOf(labels: Labels, k: Key, obj: Obj): Item {
    Item(k.name, k.namespace, labels(obj.manifest), obj)
  }

  predicate LiveItem(c: Cluster, labels: Labels, gvr: GVR, item: Item) {
    var k := Key(gvr, item.namespace, item.name);
    k in c.objects && item == ItemOf(labels, k, c.objects[k])
  }

  /** Names are well formed, and an object has a namespace exactly if its type is namespaced. */
  predicate KeyPlaced(scope: GVR -> bool, k: Key) {
    WellFormed(k) && (scope(k.gvr) <==> k.namespace != "")
  }

  ghost predicate Sane(c: Cluster, scope: GVR -> bool) {
    forall k | k in c.objects :: KeyPlaced(scope, k)
  }

  predicate ScopeKnown(scope: GVR -> bool, apiVersion: string, res: APIResource) {
    var gv := ParseGroupVersion(apiVersion);
    gv.Some? ==> scope(TypeOf(gv.value, res)) == res.namespaced
  }

  /** List and get calls answer with the live objects. */
  ghost predicate Reflects(api: Api, c: Cluster, labels: Labels, scope: GVR -> bool) {
    && (forall gvr, item | item in api.objects(gvr) :: LiveItem(c, labels, gvr, item))
    && (forall k | k in c.objects :: ItemOf(labels, k, c.objects[k]) in api.objects(k.gvr))
    && (forall gvr, ns, name | api.get(gvr, ns, name).Some? :: LiveItem(c, labels, gvr, api.get(gvr, ns, name).value))
    && (forall apiVersion, res | apiVersion in api.discovery && res in api.discovery[apiVersion] ::
      ScopeKnown(scope, apiVersion, res))
  }

  /** Discovery and matching do not depend on the objects. */
  ghost predicate SameRules(a: Api, b: Api) {
    a.rx == b.rx && a.discovery == b.discovery && a.labelsMatch == b.labelsMatch && a.fieldsMatch == b.fieldsMatch
  }

  type Server = Cluster -> Api

  ghost predicate Faithful(server: Server, labels: Labels, scope: GVR -> bool) {
    && (forall c | Sane(c, scope) :: Honest(server(c)) && Reflects(server(c), c, labels, scope))
    && (forall c, d :: SameRules(server(c), server(d)))
  }

  // ---- everything gathered is a live object ----

  predicate GatheredItem(c: Cluster, labels: Labels, scope: GVR -> bool, g: GVResource, item: Item) {
    LiveItem(c, labels, GVROf(g), item) && scope(GVROf(g)) == g.namespaced
  }

  ghost predicate AllLiveItems(c: Cluster, labels: Labels, scope: GVR -> bool, m: Gathered) {
    forall g, item | g in m && item in m[g] :: GatheredItem(c, labels, scope, g, item)
  }

  lemma {:induction false} GetNamesLive(api: Api, c: Cluster, labels: Labels, scope: GVR -> bool, gvr: GVR, ns: string,
                                        names: seq<string>)
    requires Reflects(api, c, labels, scope) && GetNames(api, gvr, ns, names).Some?
    ensures forall item | item in GetNames(api, gvr, ns, names).value :: LiveItem(c, labels, gvr, item)
  {
    hide LiveItem;
    if names != [] {
      GetNamesLive(api, c, labels, scope, gvr, ns, names[..|names| - 1]);
    }
  }

  lemma {:induction false} GetNamespacesLive(api: Api, c: Cluster, labels: Labels, scope: GVR -> bool, gvr: GVR,
                                             namespaces: seq<string>, names: seq<string>)
    requires Reflects(api, c, labels, scope) && GetNamespaces(api, gvr, namespaces, names).Some?
    ensures forall item | item in GetNamespaces(api, gvr, namespaces, names).value :: LiveItem(c, labels, gvr, item)
  {
    hide LiveItem, Reflects, GetNames;
    if namespaces != [] {
      var n := |namespaces| - 1;
      GetNamespacesLive(api, c, labels, scope, gvr, namespaces[..n], names);
      GetNamesLive(api, c, labels, scope, gvr, namespaces[n], names);
    }
  }

  lemma GetOnlyLive(api: Api, c: Cluster, labels: Labels, scope: GVR -> bool, sel: Selector, res: APIResource, gvr: GVR)
    requires Reflects(api, c, labels, scope) && GetOnly(api, sel, res, gvr).Some?
    ensures forall item | item in GetOnly(api, sel, res, gvr).value :: LiveItem(c, labels, gvr, item)
  {
    hide LiveItem, Reflects, GetNames, GetNamespaces;
    if sel.resourceNames != [] && (res.namespaced ==> sel.namespaces != []) {
      if res.namespaced {
        GetNamespacesLive(api, c, labels, scope, gvr, sel.namespaces, sel.resourceNames);
      } else {
        GetNamesLive(api, c, labels, scope, gvr, "", sel.resourceNames);
      }
    }
  }

  lemma SelectedLive(api: Api, c: Cluster, labels: Labels, scope: GVR -> bool, sel: Selector, res: APIResource,
                     gvr: GVR)
    requires Reflects(api, c, labels, scope)
    ensures forall item | item in Selected(api, sel, res, api.objects(gvr)) :: LiveItem(c, labels, gvr, item)
  {
    hide LiveItem, Selects;
    forall item | item in Selected(api, sel, res, api.objects(gvr)) ensures LiveItem(c, labels, gvr, item) {
      SelectedMembers(api, sel, res, api.objects(gvr), item);
    }
  }

  lemma GatherTypeLive(api: Api, c: Cluster, labels: Labels, scope: GVR -> bool, sel: Selector, gv: GroupVersion,
                       res: APIResource, m: Gathered)
    requires Reflects(api, c, labels, scope) && AllLiveItems(c, labels, scope, m)
    requires scope(TypeOf(gv, res)) == res.namespaced
    requires GatherType(api, sel, gv, res, m).Some?
    ensures AllLiveItems(c, labels, scope, GatherType(api, sel, gv, res, m).value)
  {
    hide LiveItem, Reflects, GetOnly, ListFails, Selected;
    var g, gvr := ResultKey(gv, res), TypeOf(gv, res);
    assert GVROf(g) == gvr;
    if '/' !in res.name && "list" in res.verbs {
      SelectedLive(api, c, labels, scope, sel, res, gvr);
    } else if '/' !in res.name && "get" in res.verbs {
      GetOnlyLive(api, c, labels, scope, sel, res, gvr);
    }
  }

  lemma {:induction false} GatherTypesLive(api: Api, c: Cluster, labels: Labels, scope: GVR -> bool, sel: Selector,
                                           gv: GroupVersion,
                                           resources: seq<APIResource>, m: Gathered)
    requires Reflects(api, c, labels, scope) && AllLiveItems(c, labels, scope, m)
    requires forall res | res in resources :: scope(TypeOf(gv, res)) == res.namespaced
    requires GatherTypes(api, sel, gv, resources, m).Some?
    ensures AllLiveItems(c, labels, scope, GatherTypes(api, sel, gv, resources, m).value)
  {
    hide Reflects, AllLiveItems, GatherType;
    if resources != [] {
      var n := |resources| - 1;
      GatherTypesLive(api, c, labels, scope, sel, gv, resources[..n], m);
      assert resources[n] in resources;
      GatherTypeLive(api, c, labels, scope, sel, gv, resources[n], GatherTypes(api, sel, gv, resources[..n], m).value);
    }
  }

  lemma {:induction false} GatherAllLive(api: Api, c: Cluster, labels: Labels, scope: GVR -> bool, sels: seq<Selector>)
    requires Reflects(api, c, labels, scope) && GatherAll(api, sels).Some?
    ensures AllLiveItems(c, labels, scope, GatherAll(api, sels).value)
  {
    hide GatherTypes, KindFiltered, ParseGroupVersion, KeepsKind;
    if sels != [] {
      var n := |sels| - 1;
      var sel := sels[n];
      GatherAllLive(api, c, labels, scope, sels[..n]);
      var gv := ParseGroupVersion(sel.apiVersion).value;
      var kept := KindFiltered(api.rx, sel, Discovered(api, sel.apiVersion));
      KindFilteredKept(api.rx, sel, Discovered(api, sel.apiVersion));
      forall res | res in kept ensures scope(TypeOf(gv, res)) == res.namespaced {
        assert ScopeKnown(scope, sel.apiVersion, res);
      }
      GatherTypesLive(api, c, labels, scope, sel, gv, kept, GatherAll(api, sels[..n]).value);
    }
  }

  lemma GatheredIsWellPlaced(c: Cluster, labels: Labels, scope: GVR -> bool, m: Gathered)
    requires Sane(c, scope) && AllLiveItems(c, labels, scope, m)
    ensures ItemsWellPlaced(m)
  {
    hide WellFormed;
    forall g, item | g in m && item in m[g] ensures ItemWellPlaced(g, item) {
      assert GatheredItem(c, labels, scope, g, item);
      assert KeyPlaced(scope, TargetOf(g, item));
    }
  }

  // ---- and every live object the selectors match is gathered ----

  /** Some selector matches the live object `k`, as an object of the type `g`. */
  ghost predicate Matched(api: Api, sels: seq<Selector>, labels: Labels, c: Cluster, k: Key, g: GVResource) {
    && k in c.objects && GVROf(g) == k.gvr
    && exists sel, res :: sel in sels && SelectedAs(api, sel, res, g, ItemOf(labels, k, c.objects[k]))
  }

  lemma MatchedIsGathered(api: Api, sels: seq<Selector>, labels: Labels, c: Cluster, k: Key, g: GVResource)
    requires GatherAll(api, sels).Some? && AlwaysListable(api, g) && Matched(api, sels, labels, c, k, g)
    ensures GatheredAs(GatherAll(api, sels).value, k)
  {
    hide SelectedAs, GatherAll, Picked, AlwaysListable;
    var m, item := GatherAll(api, sels).value, ItemOf(labels, k, c.objects[k]);
    GatherMeetsSpec(api, sels, g);
    PickedMembers(api, sels, g, item);
    assert g in m && item in m[g] && TargetOf(g, item) == k;
  }

  /** Matching depends only on the object itself. */
  lemma MatchedStays(a: Api, b: Api, sels: seq<Selector>, labels: Labels, scope: GVR -> bool, c: Cluster, d: Cluster,
                     k: Key, g: GVResource)
    requires SameRules(a, b) && Reflects(a, c, labels, scope) && Reflects(b, d, labels, scope)
    requires Matched(b, sels, labels, d, k, g) && k in c.objects && c.objects[k] == d.objects[k]
    ensures Matched(a, sels, labels, c, k, g)
  {
    hide ParseGroupVersion, KeepsKind, KeepsName, KeepsNamespace;
    var item := ItemOf(labels, k, d.objects[k]);
    var sel, res :| sel in sels && SelectedAs(b, sel, res, g, item);
    assert TypeOf(ParseGroupVersion(sel.apiVersion).value, res) == k.gvr;
    assert SelectedAs(a, sel, res, g, item);
  }
}
