/** Which objects a ResourceSet selects: the collector's filters, its paging loop and its nested loops. */
module Selection {
  import opened Results
  import opened Kube

  /** A label selector; what it matches is the API server's business. */
  datatype LabelSelector = LabelSelector(text: string)

  datatype Selector = Selector(
    apiVersion: string,
    kinds: seq<string>,
    kindsRegexp: string,
    excludeKinds: seq<string>,
    resourceNames: seq<string>,
    resourceNameRegexp: string,
    excludeResourceNameRegexp: string,
    namespaces: seq<string>,
    namespaceRegexp: string,
    labelSelector: Option<LabelSelector>,
    fieldSelectors: map<string, string>)

  /** One resource type as discovery reports it. */
  datatype APIResource = APIResource(name: string, kind: string, namespaced: bool, verbs: seq<string>)

  datatype Item = Item(name: string, namespace: string, labels: map<string, string>, obj: Obj)

  /** The key of the collector's result map. */
  datatype GVResource = GVResource(group: string, version: string, name: string, namespaced: bool)

  /** Go's regexp package: which patterns compile, and what a compiled one matches. */
  datatype Regexps = Regexps(compiles: string -> bool, matches: (string, string) -> bool)

  /** The API server during one gathering. `objects` lists a type's objects in the server's order,
      `pages` how it cuts the answer to a list call, `get` a single object. */
  datatype Api = Api(
    rx: Regexps,
    discovery: map<string, seq<APIResource>>,
    discoveryFails: set<string>,
    objects: GVR -> seq<Item>,
    pages: (GVR, Selector) -> seq<seq<Item>>,
    listFailsAt: (GVR, Selector) -> Option<nat>,
    get: (GVR, string, string) -> Option<Item>,
    labelsMatch: (LabelSelector, map<string, string>) -> bool,
    fieldsMatch: (map<string, string>, Item) -> bool)

  // ---- what a selector means ----

  predicate ServerSide(api: Api, sel: Selector, item: Item) {
    && (sel.labelSelector.Some? ==> api.labelsMatch(sel.labelSelector.value, item.labels))
    && (sel.fieldSelectors != map[] ==> api.fieldsMatch(sel.fieldSelectors, item))
  }

  predicate NoKindFilter(sel: Selector) {
    sel.kindsRegexp == "" && sel.kinds == []
  }

  /** Exact kinds win; the regexp side alone is subject to exclusions. */
  predicate KeepsKind(rx: Regexps, sel: Selector, res: APIResource) {
    || NoKindFilter(sel)
    || res.kind in sel.kinds || res.name in sel.kinds
    || (&& sel.kindsRegexp != ""
        && (sel.kindsRegexp == "." || rx.matches(sel.kindsRegexp, res.kind) || rx.matches(sel.kindsRegexp, res.name))
        && res.kind !in sel.excludeKinds && res.name !in sel.excludeKinds)
  }

  predicate NoNameFilter(sel: Selector) {
    sel.resourceNames == [] && sel.resourceNameRegexp == "" && sel.excludeResourceNameRegexp == ""
  }

  predicate HasNameRegexp(sel: Selector) {
    sel.resourceNameRegexp != "" || sel.excludeResourceNameRegexp != ""
  }

  predicate KeepsName(rx: Regexps, sel: Selector, name: string) {
    || NoNameFilter(sel)
    || name in sel.resourceNames
    || (&& HasNameRegexp(sel)
        && (sel.resourceNameRegexp == "" || rx.matches(sel.resourceNameRegexp, name))
        && (sel.excludeResourceNameRegexp == "" || !rx.matches(sel.excludeResourceNameRegexp, name)))
  }

  predicate NoNamespaceFilter(sel: Selector) {
    sel.namespaces == [] && sel.namespaceRegexp == ""
  }

  predicate KeepsNamespace(rx: Regexps, sel: Selector, namespace: string) {
    || NoNamespaceFilter(sel)
    || namespace in sel.namespaces
    || (sel.namespaceRegexp != "" && (sel.namespaceRegexp == "." || rx.matches(sel.namespaceRegexp, namespace)))
  }

  /** Kind AND name AND namespace AND the server-side selectors. */
  predicate Selects(api: Api, sel: Selector, res: APIResource, item: Item) {
    && KeepsKind(api.rx, sel, res)
    && KeepsName(api.rx, sel, item.name)
    && (res.namespaced ==> KeepsNamespace(api.rx, sel, item.namespace))
    && ServerSide(api, sel, item)
  }

  /** The objects of a type that a selector selects, in the server's order. */
  function Selected(api: Api, sel: Selector, res: APIResource, items: seq<Item>): seq<Item> {
    if items == [] then []
    else
      var n := |items| - 1;
      if Selects(api, sel, res, items[n]) then Selected(api, sel, res, items[..n]) + [items[n]]
      else Selected(api, sel, res, items[..n])
  }

  // ---- the filters ----

  function ServerFiltered(api: Api, sel: Selector, items: seq<Item>): seq<Item> {
    if items == [] then []
    else
      var n := |items| - 1;
      if ServerSide(api, sel, items[n]) then ServerFiltered(api, sel, items[..n]) + [items[n]]
      else ServerFiltered(api, sel, items[..n])
  }

  function NameFiltered(rx: Regexps, sel: Selector, items: seq<Item>): seq<Item> {
    if items == [] then []
    else
      var n := |items| - 1;
      if KeepsName(rx, sel, items[n].name) then NameFiltered(rx, sel, items[..n]) + [items[n]]
      else NameFiltered(rx, sel, items[..n])
  }

  function NamespaceFiltered(rx: Regexps, sel: Selector, items: seq<Item>): seq<Item> {
    if items == [] then []
    else
      var n := |items| - 1;
      if KeepsNamespace(rx, sel, items[n].namespace) then NamespaceFiltered(rx, sel, items[..n]) + [items[n]]
      else NamespaceFiltered(rx, sel, items[..n])
  }

  function KindFiltered(rx: Regexps, sel: Selector, resources: seq<APIResource>): seq<APIResource> {
    if resources == [] then []
    else
      var n := |resources| - 1;
      if KeepsKind(rx, sel, resources[n]) then KindFiltered(rx, sel, resources[..n]) + [resources[n]]
      else KindFiltered(rx, sel, resources[..n])
  }

  predicate Bad(rx: Regexps, pattern: string) {
    pattern != "" && !rx.compiles(pattern)
  }

  method FilterByKind(rx: Regexps, sel: Selector, resources: seq<APIResource>) returns (r: Option<seq<APIResource>>)
    ensures r == if !NoKindFilter(sel) && Bad(rx, sel.kindsRegexp) then None else Some(KindFiltered(rx, sel, resources))
  {
    if sel.kindsRegexp == "" && sel.kinds == [] {
      EverythingKept(rx, sel, resources);
      return Some(resources);
    }
    if sel.kindsRegexp != "" && !rx.compiles(sel.kindsRegexp) {
      return None;
    }
    var allowedKinds := set name | name in sel.kinds;
    var disallowedKinds := set name | name in sel.excludeKinds;
    var resourceList := [];
    for i := 0 to |resources|
      invariant resourceList == KindFiltered(rx, sel, resources[..i])
    {
      assert resources[..i + 1][..i] == resources[..i];
      var resObj := resources[i];
      if resObj.kind in allowedKinds || resObj.name in allowedKinds {
        resourceList := resourceList + [resObj];
        continue;
      }
      if sel.kindsRegexp == "" {
        continue;
      }
      if (sel.kindsRegexp == "." || rx.matches(sel.kindsRegexp, resObj.kind)
          || rx.matches(sel.kindsRegexp, resObj.name))
         && resObj.kind !in disallowedKinds && resObj.name !in disallowedKinds {
        resourceList := resourceList + [resObj];
      }
    }
    assert resources[..|resources|] == resources;
    return Some(resourceList);
  }

  lemma {:induction false} EverythingKept(rx: Regexps, sel: Selector, resources: seq<APIResource>)
    requires NoKindFilter(sel)
    ensures KindFiltered(rx, sel, resources) == resources
  {
    if resources != [] {
      EverythingKept(rx, sel, resources[..|resources| - 1]);
    }
  }

  method FilterByName(rx: Regexps, sel: Selector, items: seq<Item>) returns (r: Option<seq<Item>>)
    ensures r == if Bad(rx, sel.resourceNameRegexp) || Bad(rx, sel.excludeResourceNameRegexp) then None
                 else Some(NameFiltered(rx, sel, items))
  {
    if sel.resourceNames == [] && sel.resourceNameRegexp == "" && sel.excludeResourceNameRegexp == "" {
      EveryNameKept(rx, sel, items);
      return Some(items);
    }
    var includeNames := set name | name in sel.resourceNames;
    var hasRegex := false;
    if sel.resourceNameRegexp != "" {
      if !rx.compiles(sel.resourceNameRegexp) {
        return None;
      }
      hasRegex := true;
    }
    if sel.excludeResourceNameRegexp != "" {
      if !rx.compiles(sel.excludeResourceNameRegexp) {
        return None;
      }
      hasRegex := true;
    }
    var filteredByName := [];
    for i := 0 to |items|
      invariant filteredByName == NameFiltered(rx, sel, items[..i])
    {
      assert items[..i + 1][..i] == items[..i];
      var name := items[i].name;
      if name in includeNames {
        filteredByName := filteredByName + [items[i]];
      } else if hasRegex {
        var includeMatch := sel.resourceNameRegexp == "" || rx.matches(sel.resourceNameRegexp, name);
        if includeMatch {
          var excludeMatch := sel.excludeResourceNameRegexp != "" && rx.matches(sel.excludeResourceNameRegexp, name);
          if !excludeMatch {
            filteredByName := filteredByName + [items[i]];
          }
        }
      }
    }
    assert items[..|items|] == items;
    return Some(filteredByName);
  }

  lemma {:induction false} EveryNameKept(rx: Regexps, sel: Selector, items: seq<Item>)
    requires NoNameFilter(sel)
    ensures NameFiltered(rx, sel, items) == items
  {
    if items != [] {
      EveryNameKept(rx, sel, items[..|items| - 1]);
    }
  }

  method FilterByNamespace(rx: Regexps, sel: Selector, items: seq<Item>) returns (r: Option<seq<Item>>)
    ensures r == if Bad(rx, sel.namespaceRegexp) then None else Some(NamespaceFiltered(rx, sel, items))
  {
    if sel.namespaces == [] && sel.namespaceRegexp == "" {
      EveryNamespaceKept(rx, sel, items);
      return Some(items);
    }
    if sel.namespaceRegexp != "" && !rx.compiles(sel.namespaceRegexp) {
      return None;
    }
    var allowedNamespaces := set ns | ns in sel.namespaces;
    var filteredObjects := [];
    for i := 0 to |items|
      invariant filteredObjects == NamespaceFiltered(rx, sel, items[..i])
    {
      assert items[..i + 1][..i] == items[..i];
      var namespace := items[i].namespace;
      if namespace in allowedNamespaces
         || (sel.namespaceRegexp != "" && (sel.namespaceRegexp == "." || rx.matches(sel.namespaceRegexp, namespace))) {
        filteredObjects := filteredObjects + [items[i]];
      }
    }
    assert items[..|items|] == items;
    return Some(filteredObjects);
  }

  lemma {:induction false} EveryNamespaceKept(rx: Regexps, sel: Selector, items: seq<Item>)
    requires NoNamespaceFilter(sel)
    ensures NamespaceFiltered(rx, sel, items) == items
  {
    if items != [] {
      EveryNamespaceKept(rx, sel, items[..|items| - 1]);
    }
  }

  // ---- paging ----

  function Concat(pages: seq<seq<Item>>): seq<Item> {
    if pages == [] then [] else Concat(pages[..|pages| - 1]) + pages[|pages| - 1]
  }

  /** One list call: the page a continue token stands for, and the next token, 0 when there is none. */
  datatype ListResult = ListResult(items: seq<Item>, next: nat)

  function List(pages: seq<seq<Item>>, failsAt: Option<nat>, token: nat): Option<ListResult>
    requires token < |pages|
  {
    if failsAt == Some(token) then None
    else Some(ListResult(pages[token], if token + 1 < |pages| then token + 1 else 0))
  }

  /** unrollPaginatedListResult: whatever the page sizes, the pages in order, unless a call fails. */
  method UnrollPaginatedListResult(pages: seq<seq<Item>>, failsAt: Option<nat>) returns (r: Option<seq<Item>>)
    requires |pages| > 0
    ensures r == if failsAt.Some? && failsAt.value < |pages| then None else Some(Concat(pages))
  {
    var first := List(pages, failsAt, 0);
    if first.None? {
      return None;
    }
    var items, continueList := first.value.items, first.value.next;
    ghost var read := 1;
    assert pages[..1] == [pages[0]] && pages[..1][..0] == [];
    while continueList != 0
      invariant 1 <= read <= |pages|
      invariant continueList == if read < |pages| then read else 0
      invariant items == Concat(pages[..read])
      invariant failsAt.Some? ==> failsAt.value >= read
      decreases |pages| - read
    {
      var current := List(pages, failsAt, continueList);
      if current.None? {
        return None;
      }
      assert pages[..read + 1][..read] == pages[..read];
      continueList := current.value.next;
      items := items + current.value.items;
      read := read + 1;
    }
    assert pages[..|pages|] == pages;
    return Some(items);
  }

  /** The server answers a list call with the objects its selectors match, cut into pages as it likes. */
  ghost predicate Honest(api: Api) {
    forall gvr, sel ::
      |api.pages(gvr, sel)| > 0 && Concat(api.pages(gvr, sel)) == ServerFiltered(api, sel, api.objects(gvr))
  }

  /** Some regexp that the selector needs for this type does not compile, or the listing fails. */
  predicate ListFails(api: Api, sel: Selector, res: APIResource, gvr: GVR) {
    || (api.listFailsAt(gvr, sel).Some? && api.listFailsAt(gvr, sel).value < |api.pages(gvr, sel)|)
    || Bad(api.rx, sel.resourceNameRegexp) || Bad(api.rx, sel.excludeResourceNameRegexp)
    || (res.namespaced && Bad(api.rx, sel.namespaceRegexp))
  }

  /** gatherObjectsForResource: list, filter by name, filter by namespace. */
  method GatherObjectsForResource(api: Api, sel: Selector, res: APIResource, gvr: GVR) returns (r: Option<seq<Item>>)
    requires Honest(api) && KeepsKind(api.rx, sel, res)
    ensures r == if ListFails(api, sel, res, gvr) then None else Some(Selected(api, sel, res, api.objects(gvr)))
  {
    var resources := UnrollPaginatedListResult(api.pages(gvr, sel), api.listFailsAt(gvr, sel));
    if resources.None? {
      return None;
    }
    FiltersCompose(api, sel, res, api.objects(gvr));
    var filteredByName := FilterByName(api.rx, sel, resources.value);
    if filteredByName.None? {
      return None;
    }
    if res.namespaced && (|sel.namespaces| > 0 || sel.namespaceRegexp != "") {
      r := FilterByNamespace(api.rx, sel, filteredByName.value);
      return;
    }
    EveryNamespaceKeptIf(api.rx, sel, filteredByName.value);
    return filteredByName;
  }

  lemma EveryNamespaceKeptIf(rx: Regexps, sel: Selector, items: seq<Item>)
    ensures NoNamespaceFilter(sel) ==> NamespaceFiltered(rx, sel, items) == items
  {
    if NoNamespaceFilter(sel) {
      EveryNamespaceKept(rx, sel, items);
    }
  }

  /** Filtering step by step is selecting: kind AND name AND namespace AND server-side selectors. */
  lemma {:induction false} FiltersCompose(api: Api, sel: Selector, res: APIResource, items: seq<Item>)
    requires KeepsKind(api.rx, sel, res)
    ensures var named := NameFiltered(api.rx, sel, ServerFiltered(api, sel, items));
            Selected(api, sel, res, items) == if res.namespaced then NamespaceFiltered(api.rx, sel, named) else named
  {
    hide KeepsKind, KeepsName, KeepsNamespace, ServerSide;
    if items != [] {
      var n := |items| - 1;
      FiltersCompose(api, sel, res, items[..n]);
      var server := ServerFiltered(api, sel, items[..n]);
      var named := NameFiltered(api.rx, sel, server);
      assert (server + [items[n]])[..|server|] == server;
      assert (named + [items[n]])[..|named|] == named;
    }
  }

  // ---- GatherResources ----

  type Gathered = map<GVResource, seq<Item>>

  function ResultKey(gv: GroupVersion, res: APIResource): GVResource {
    GVResource(gv.group, gv.version, res.name, res.namespaced)
  }

  function TypeOf(gv: GroupVersion, res: APIResource): GVR {
    GVR(gv.group, gv.version, res.name)
  }

  function At(m: Gathered, g: GVResource): seq<Item> {
    if g in m then m[g] else []
  }

  /** One GET per name; the first object that is not there is an error. */
  function GetNames(api: Api, gvr: GVR, ns: string, names: seq<string>): Option<seq<Item>> {
    if names == [] then Some([])
    else
      var n := |names| - 1;
      match GetNames(api, gvr, ns, names[..n])
      case None => None
      case Some(items) =>
        match api.get(gvr, ns, names[n])
        case None => None
        case Some(item) => Some(items + [item])
  }

  function GetNamespaces(api: Api, gvr: GVR, namespaces: seq<string>, names: seq<string>): Option<seq<Item>> {
    if namespaces == [] then Some([])
    else
      var n := |namespaces| - 1;
      match GetNamespaces(api, gvr, namespaces[..n], names)
      case None => None
      case Some(items) =>
        match GetNames(api, gvr, namespaces[n], names)
        case None => None
        case Some(more) => Some(items + more)
  }

  /** gatherObjectsForNonListResource: exact names, and exact namespaces for a namespaced type. */
  function GetOnly(api: Api, sel: Selector, res: APIResource, gvr: GVR): Option<seq<Item>> {
    if sel.resourceNames == [] || (res.namespaced && sel.namespaces == []) then Some([])
    else if res.namespaced then GetNamespaces(api, gvr, sel.namespaces, sel.resourceNames)
    else GetNames(api, gvr, "", sel.resourceNames)
  }

  predicate Listable(res: APIResource) {
    '/' !in res.name && "list" in res.verbs
  }

  /** What one resource type adds: lists are appended, single objects replace what was there. */
  function GatherType(api: Api, sel: Selector, gv: GroupVersion, res: APIResource, m: Gathered): Option<Gathered> {
    var g, gvr := ResultKey(gv, res), TypeOf(gv, res);
    if '/' in res.name then Some(m)
    else if "list" !in res.verbs then
      if "get" !in res.verbs then Some(m)
      else
        match GetOnly(api, sel, res, gvr)
        case None => None
        case Some(items) => Some(m[g := items])
    else if ListFails(api, sel, res, gvr) then None
    else Some(m[g := At(m, g) + Selected(api, sel, res, api.objects(gvr))])
  }

  function GatherTypes(api: Api, sel: Selector, gv: GroupVersion, resources: seq<APIResource>, m: Gathered)
    : Option<Gathered> {
    if resources == [] then Some(m)
    else
      var n := |resources| - 1;
      match GatherTypes(api, sel, gv, resources[..n], m)
      case None => None
      case Some(m') => GatherType(api, sel, gv, resources[n], m')
  }

  function Discovered(api: Api, apiVersion: string): seq<APIResource> {
    if apiVersion in api.discovery then api.discovery[apiVersion] else []
  }

  function GatherSelector(api: Api, sel: Selector, m: Gathered): Option<Gathered> {
    if sel.apiVersion in api.discoveryFails then None
    else if sel.apiVersion in api.discovery && !NoKindFilter(sel) && Bad(api.rx, sel.kindsRegexp) then None
    else
      match ParseGroupVersion(sel.apiVersion)
      case None => None
      case Some(gv) => GatherTypes(api, sel, gv, KindFiltered(api.rx, sel, Discovered(api, sel.apiVersion)), m)
  }

  function GatherAll(api: Api, sels: seq<Selector>): Option<Gathered> {
    if sels == [] then Some(map[])
    else
      var n := |sels| - 1;
      match GatherAll(api, sels[..n])
      case None => None
      case Some(m) => GatherSelector(api, sels[n], m)
  }

  class ResourceHandler {
    var gvResourceToObjects: Gathered

    constructor ()
      ensures gvResourceToObjects == map[]
    {
      gvResourceToObjects := map[];
    }

    method GatherObjectsForNonListResource(api: Api, sel: Selector, res: APIResource, gvr: GVR)
      returns (r: Option<seq<Item>>)
      ensures r == GetOnly(api, sel, res, gvr)
    {
      if |sel.resourceNames| == 0 || (res.namespaced && |sel.namespaces| == 0) {
        return Some([]);
      }
      if !res.namespaced {
        r := GetEach(api, gvr, "", sel.resourceNames);
        return;
      }
      var gatheredObjects := [];
      for i := 0 to |sel.namespaces|
        invariant GetNamespaces(api, gvr, sel.namespaces[..i], sel.resourceNames) == Some(gatheredObjects)
      {
        assert sel.namespaces[..i + 1][..i] == sel.namespaces[..i];
        var more := GetEach(api, gvr, sel.namespaces[i], sel.resourceNames);
        if more.None? {
          NamespaceMissing(api, gvr, sel.namespaces, sel.resourceNames, i + 1);
          return None;
        }
        gatheredObjects := gatheredObjects + more.value;
      }
      assert sel.namespaces[..|sel.namespaces|] == sel.namespaces;
      return Some(gatheredObjects);
    }

    method GetEach(api: Api, gvr: GVR, ns: string, names: seq<string>) returns (r: Option<seq<Item>>)
      ensures r == GetNames(api, gvr, ns, names)
    {
      var gatheredObjects := [];
      for i := 0 to |names|
        invariant GetNames(api, gvr, ns, names[..i]) == Some(gatheredObjects)
      {
        assert names[..i + 1][..i] == names[..i];
        var obj := api.get(gvr, ns, names[i]);
        if obj.None? {
          NameMissing(api, gvr, ns, names, i + 1);
          return None;
        }
        gatheredObjects := gatheredObjects + [obj.value];
      }
      assert names[..|names|] == names;
      return Some(gatheredObjects);
    }

    /** The kept resource types of one selector, one after the other. */
    method GatherTypesOf(api: Api, sel: Selector, gv: GroupVersion, resources: seq<APIResource>) returns (ok: bool)
      requires Honest(api) && forall res | res in resources :: KeepsKind(api.rx, sel, res)
      modifies this
      ensures var m := GatherTypes(api, sel, gv, resources, old(gvResourceToObjects));
              ok == m.Some? && (ok ==> gvResourceToObjects == m.value)
    {
      hide Honest, KeepsKind, GetOnly, ListFails, Selected;
      ghost var before := gvResourceToObjects;
      for i := 0 to |resources|
        invariant GatherTypes(api, sel, gv, resources[..i], before) == Some(gvResourceToObjects)
      {
        assert resources[..i + 1][..i] == resources[..i];
        var res := resources[i];
        var g, gvr := ResultKey(gv, res), TypeOf(gv, res);
        ghost var m := gvResourceToObjects;
        if '/' in res.name {
          continue;
        }
        if "list" !in res.verbs {
          if "get" in res.verbs {
            var single := GatherObjectsForNonListResource(api, sel, res, gvr);
            if single.None? {
              TypeFails(api, sel, gv, resources, before, i + 1);
              return false;
            }
            gvResourceToObjects := gvResourceToObjects[g := single.value];
          }
          continue;
        }
        var filtered := GatherObjectsForResource(api, sel, res, gvr);
        if filtered.None? {
          TypeFails(api, sel, gv, resources, before, i + 1);
          return false;
        }
        if g in gvResourceToObjects {
          gvResourceToObjects := gvResourceToObjects[g := gvResourceToObjects[g] + filtered.value];
        } else {
          assert [] + filtered.value == filtered.value;
          gvResourceToObjects := gvResourceToObjects[g := filtered.value];
        }
      }
      assert resources[..|resources|] == resources;
      return true;
    }

    method GatherResources(api: Api, sels: seq<Selector>) returns (ok: bool)
      requires Honest(api)
      modifies this
      ensures ok == GatherAll(api, sels).Some? && (ok ==> gvResourceToObjects == GatherAll(api, sels).value)
    {
      hide Honest, KindFiltered, GatherTypes;
      gvResourceToObjects := map[];
      for i := 0 to |sels|
        invariant GatherAll(api, sels[..i]) == Some(gvResourceToObjects)
      {
        assert sels[..i + 1][..i] == sels[..i];
        var sel := sels[i];
        if sel.apiVersion in api.discoveryFails {
          SelectorFails(api, sels, i + 1);
          return false;
        }
        var resourceList := [];
        if sel.apiVersion in api.discovery {
          var filtered := FilterByKind(api.rx, sel, api.discovery[sel.apiVersion]);
          if filtered.None? {
            SelectorFails(api, sels, i + 1);
            return false;
          }
          resourceList := filtered.value;
        } else {
          NothingFiltered(api.rx, sel);
        }
        var gv := ParseGroupVersion(sel.apiVersion);
        if gv.None? {
          SelectorFails(api, sels, i + 1);
          return false;
        }
        KindFilteredKept(api.rx, sel, Discovered(api, sel.apiVersion));
        var done := GatherTypesOf(api, sel, gv.value, resourceList);
        if !done {
          SelectorFails(api, sels, i + 1);
          return false;
        }
      }
      assert sels[..|sels|] == sels;
      return true;
    }
  }

  lemma NothingFiltered(rx: Regexps, sel: Selector)
    ensures KindFiltered(rx, sel, []) == []
  {
  }

  lemma {:induction false} KindFilteredKept(rx: Regexps, sel: Selector, resources: seq<APIResource>)
    ensures forall res :: res in KindFiltered(rx, sel, resources) <==> res in resources && KeepsKind(rx, sel, res)
  {
    hide KeepsKind;
    if resources != [] {
      var n := |resources| - 1;
      KindFilteredKept(rx, sel, resources[..n]);
      assert resources == resources[..n] + [resources[n]];
    }
  }

  lemma NameMissing(api: Api, gvr: GVR, ns: string, names: seq<string>, k: nat)
    requires k <= |names| && GetNames(api, gvr, ns, names[..k]).None?
    ensures GetNames(api, gvr, ns, names).None?
    decreases |names|
  {
    if k < |names| {
      assert names[..|names| - 1][..k] == names[..k];
      NameMissing(api, gvr, ns, names[..|names| - 1], k);
    } else {
      assert names[..k] == names;
    }
  }

  lemma NamespaceMissing(api: Api, gvr: GVR, namespaces: seq<string>, names: seq<string>, k: nat)
    requires k <= |namespaces| && GetNamespaces(api, gvr, namespaces[..k], names).None?
    ensures GetNamespaces(api, gvr, namespaces, names).None?
    decreases |namespaces|
  {
    if k < |namespaces| {
      assert namespaces[..|namespaces| - 1][..k] == namespaces[..k];
      NamespaceMissing(api, gvr, namespaces[..|namespaces| - 1], names, k);
    } else {
      assert namespaces[..k] == namespaces;
    }
  }

  lemma TypeFails(api: Api, sel: Selector, gv: GroupVersion, resources: seq<APIResource>, m: Gathered, k: nat)
    requires k <= |resources| && GatherTypes(api, sel, gv, resources[..k], m).None?
    ensures GatherTypes(api, sel, gv, resources, m).None?
    decreases |resources|
  {
    hide GatherType;
    if k < |resources| {
      assert resources[..|resources| - 1][..k] == resources[..k];
      TypeFails(api, sel, gv, resources[..|resources| - 1], m, k);
    } else {
      assert resources[..k] == resources;
    }
  }

  lemma SelectorFails(api: Api, sels: seq<Selector>, k: nat)
    requires k <= |sels| && GatherAll(api, sels[..k]).None?
    ensures GatherAll(api, sels).None?
    decreases |sels|
  {
    hide GatherSelector;
    if k < |sels| {
      assert sels[..|sels| - 1][..k] == sels[..k];
      SelectorFails(api, sels[..|sels| - 1], k);
    } else {
      assert sels[..k] == sels;
    }
  }

  // ---- the declarative reading ----

  /** Concatenation over the types a selector names that are the type `g`. */
  function PickedTypes(api: Api, sel: Selector, gv: GroupVersion, resources: seq<APIResource>, g: GVResource)
    : seq<Item> {
    if resources == [] then []
    else
      var n := |resources| - 1;
      var init := PickedTypes(api, sel, gv, resources[..n], g);
      if Listable(resources[n]) && ResultKey(gv, resources[n]) == g
      then init + Selected(api, sel, resources[n], api.objects(TypeOf(gv, resources[n])))
      else init
  }

  /** ... and over the selectors, in order. */
  function Picked(api: Api, sels: seq<Selector>, g: GVResource): seq<Item> {
    if sels == [] then []
    else
      var n := |sels| - 1;
      var init := Picked(api, sels[..n], g);
      match ParseGroupVersion(sels[n].apiVersion)
      case None => init
      case Some(gv) => init + PickedTypes(api, sels[n], gv,
                                          KindFiltered(api.rx, sels[n], Discovered(api, sels[n].apiVersion)), g)
  }

  /** No selector reaches `g` as a type that cannot be listed. */
  ghost predicate AlwaysListable(api: Api, g: GVResource) {
    forall apiVersion, res | apiVersion in api.discovery && res in api.discovery[apiVersion] ::
      var gv := ParseGroupVersion(apiVersion);
      gv.Some? && ResultKey(gv.value, res) == g ==> Listable(res)
  }

  lemma {:induction false} TypesPicked(api: Api, sel: Selector, gv: GroupVersion, resources: seq<APIResource>,
                                       m: Gathered, g: GVResource)
    requires GatherTypes(api, sel, gv, resources, m).Some?
    requires forall res | res in resources && ResultKey(gv, res) == g :: Listable(res)
    ensures At(GatherTypes(api, sel, gv, resources, m).value, g) == At(m, g) + PickedTypes(api, sel, gv, resources, g)
  {
    hide Selected, GetOnly, ListFails;
    if resources != [] {
      var n := |resources| - 1;
      TypesPicked(api, sel, gv, resources[..n], m, g);
      assert resources[n] in resources;
    }
  }

  /** Gathering meets its specification: a listable type's result is the concatenation, selector by
      selector, of exactly the objects each selects. */
  lemma {:induction false} GatherMeetsSpec(api: Api, sels: seq<Selector>, g: GVResource)
    requires GatherAll(api, sels).Some? && AlwaysListable(api, g)
    ensures At(GatherAll(api, sels).value, g) == Picked(api, sels, g)
  {
    hide GatherTypes, PickedTypes, ParseGroupVersion;
    if sels != [] {
      var n := |sels| - 1;
      GatherMeetsSpec(api, sels[..n], g);
      var sel := sels[n];
      var gv := ParseGroupVersion(sel.apiVersion).value;
      KindFilteredKept(api.rx, sel, Discovered(api, sel.apiVersion));
      TypesPicked(api, sel, gv, KindFiltered(api.rx, sel, Discovered(api, sel.apiVersion)),
                  GatherAll(api, sels[..n]).value, g);
    }
  }

  /** `item` is selected by `sel` as an object of the listable type `g`. */
  predicate SelectedAs(api: Api, sel: Selector, res: APIResource, g: GVResource, item: Item) {
    var gv := ParseGroupVersion(sel.apiVersion);
    && gv.Some? && res in Discovered(api, sel.apiVersion)
    && Listable(res) && ResultKey(gv.value, res) == g
    && item in api.objects(TypeOf(gv.value, res)) && Selects(api, sel, res, item)
  }

  lemma {:induction false} SelectedMembers(api: Api, sel: Selector, res: APIResource, items: seq<Item>, item: Item)
    ensures item in Selected(api, sel, res, items) <==> item in items && Selects(api, sel, res, item)
  {
    hide Selects;
    if items != [] {
      var n := |items| - 1;
      SelectedMembers(api, sel, res, items[..n], item);
      assert items == items[..n] + [items[n]];
    }
  }

  predicate PickedFrom(api: Api, sel: Selector, gv: GroupVersion, res: APIResource, g: GVResource, item: Item) {
    && Listable(res) && ResultKey(gv, res) == g
    && item in api.objects(TypeOf(gv, res)) && Selects(api, sel, res, item)
  }

  lemma LastPicked(api: Api, sel: Selector, gv: GroupVersion, res: APIResource, g: GVResource, item: Item)
    ensures Listable(res) && ResultKey(gv, res) == g
            && item in Selected(api, sel, res, api.objects(TypeOf(gv, res))) <==>
            PickedFrom(api, sel, gv, res, g, item)
  {
    SelectedMembers(api, sel, res, api.objects(TypeOf(gv, res)), item);
  }

  lemma {:induction false} PickedTypesMembers(api: Api, sel: Selector, gv: GroupVersion, resources: seq<APIResource>,
                                              g: GVResource, item: Item)
    ensures item in PickedTypes(api, sel, gv, resources, g) <==>
            exists res :: res in resources && PickedFrom(api, sel, gv, res, g, item)
  {
    hide PickedFrom, Selected, Listable, ResultKey, TypeOf;
    if resources != [] {
      var n := |resources| - 1;
      var init, last := resources[..n], resources[n];
      PickedTypesMembers(api, sel, gv, init, g, item);
      LastPicked(api, sel, gv, last, g, item);
      assert resources == init + [last];
      assert item in PickedTypes(api, sel, gv, resources, g) <==>
             item in PickedTypes(api, sel, gv, init, g) || PickedFrom(api, sel, gv, last, g, item);
    }
  }

  /** An object is gathered exactly when some selector selects it. */
  lemma {:induction false} PickedMembers(api: Api, sels: seq<Selector>, g: GVResource, item: Item)
    ensures item in Picked(api, sels, g) <==> exists sel, res :: sel in sels && SelectedAs(api, sel, res, g, item)
  {
    hide PickedTypes, ParseGroupVersion, KeepsName, KeepsNamespace, ServerSide;
    if sels != [] {
      var n := |sels| - 1;
      var sel := sels[n];
      PickedMembers(api, sels[..n], g, item);
      assert sels == sels[..n] + [sel];
      if ParseGroupVersion(sel.apiVersion).Some? {
        var gv := ParseGroupVersion(sel.apiVersion).value;
        var kept := KindFiltered(api.rx, sel, Discovered(api, sel.apiVersion));
        KindFilteredKept(api.rx, sel, Discovered(api, sel.apiVersion));
        PickedTypesMembers(api, sel, gv, kept, g, item);
        assert forall res :: res in kept && PickedFrom(api, sel, gv, res, g, item) <==>
          SelectedAs(api, sel, res, g, item);
      }
    }
  }

  /** What a selector asks of an object: a listed kind, name or namespace is always right, one that a pattern covers
      unless it is excluded, and where neither is given all are. */
  predicate Asked(api: Api, sel: Selector, res: APIResource, item: Item) {
    && (if res.kind in sel.kinds || res.name in sel.kinds then true
        else if sel.kindsRegexp == "" then sel.kinds == []
        else if res.kind in sel.excludeKinds || res.name in sel.excludeKinds then false
        else sel.kindsRegexp == "." || api.rx.matches(sel.kindsRegexp, res.kind)
             || api.rx.matches(sel.kindsRegexp, res.name))
    && (if item.name in sel.resourceNames then true
        else if sel.resourceNameRegexp == "" && sel.excludeResourceNameRegexp == "" then sel.resourceNames == []
        else if sel.excludeResourceNameRegexp != "" && api.rx.matches(sel.excludeResourceNameRegexp, item.name)
        then false
        else sel.resourceNameRegexp == "" || api.rx.matches(sel.resourceNameRegexp, item.name))
    && (if !res.namespaced || item.namespace in sel.namespaces then true
        else if sel.namespaceRegexp == "" then sel.namespaces == []
        else sel.namespaceRegexp == "." || api.rx.matches(sel.namespaceRegexp, item.namespace))
    && (sel.labelSelector == None || api.labelsMatch(sel.labelSelector.value, item.labels))
    && (sel.fieldSelectors == map[] || api.fieldsMatch(sel.fieldSelectors, item))
  }

  lemma SelectsIff(api: Api, sel: Selector, res: APIResource, item: Item)
    ensures Selects(api, sel, res, item) <==> Asked(api, sel, res, item)
  {
  }

  /** ... of the type `g`, as discovery reports it under the selector's API version. */
  predicate AskedFor(api: Api, sel: Selector, res: APIResource, g: GVResource, item: Item) {
    && Spells(sel.apiVersion, g.group, g.version)
    && sel.apiVersion in api.discovery && res in api.discovery[sel.apiVersion]
    && res.name == g.name && res.namespaced == g.namespaced && '/' !in res.name && "list" in res.verbs
    && item in api.objects(GVR(g.group, g.version, g.name)) && Asked(api, sel, res, item)
  }

  lemma SelectedAsIff(api: Api, sel: Selector, res: APIResource, g: GVResource, item: Item)
    ensures SelectedAs(api, sel, res, g, item) <==> AskedFor(api, sel, res, g, item)
  {
    hide ParseGroupVersion, Spells, Selects, Asked;
    SelectsIff(api, sel, res, item);
    ParseGroupVersionIff(sel.apiVersion, g.group, g.version);
  }

  /** What is gathered of a listable type is what some selector asks for. */
  lemma GatheredIff(api: Api, sels: seq<Selector>, g: GVResource, item: Item)
    requires GatherAll(api, sels).Some? && AlwaysListable(api, g)
    ensures item in At(GatherAll(api, sels).value, g) <==>
            exists sel, res :: sel in sels && AskedFor(api, sel, res, g, item)
  {
    hide GatherAll, Picked, SelectedAs, AskedFor, AlwaysListable;
    GatherMeetsSpec(api, sels, g);
    PickedMembers(api, sels, g, item);
    forall sel, res ensures SelectedAs(api, sel, res, g, item) <==> AskedFor(api, sel, res, g, item) {
      SelectedAsIff(api, sel, res, g, item);
    }
  }

  // ---- when gathering succeeds ----

  predicate Compiles(rx: Regexps, pattern: string) {
    pattern == "" || rx.compiles(pattern)
  }

  /** The calls for one type are answered, and the patterns its objects are filtered by compile. */
  predicate TypeAnswered(api: Api, sel: Selector, res: APIResource, gvr: GVR) {
    if '/' in res.name then true
    else if "list" in res.verbs then
      && (api.listFailsAt(gvr, sel).Some? ==> api.listFailsAt(gvr, sel).value >= |api.pages(gvr, sel)|)
      && Compiles(api.rx, sel.resourceNameRegexp) && Compiles(api.rx, sel.excludeResourceNameRegexp)
      && (res.namespaced ==> Compiles(api.rx, sel.namespaceRegexp))
    else "get" in res.verbs ==> GetOnly(api, sel, res, gvr).Some?
  }

  /** Discovery answers for the selector's API version, its kind pattern compiles, and every type it keeps is
      answered. */
  predicate Answered(api: Api, sel: Selector) {
    && sel.apiVersion !in api.discoveryFails
    && (sel.apiVersion in api.discovery ==> NoKindFilter(sel) || Compiles(api.rx, sel.kindsRegexp))
    && ParseGroupVersion(sel.apiVersion).Some?
    && var gv := ParseGroupVersion(sel.apiVersion).value;
    && forall res | res in Discovered(api, sel.apiVersion) && KeepsKind(api.rx, sel, res) ::
      TypeAnswered(api, sel, res, TypeOf(gv, res))
  }

  lemma TypeAnsweredIff(api: Api, sel: Selector, gv: GroupVersion, res: APIResource, m: Gathered)
    ensures GatherType(api, sel, gv, res, m).Some? <==> TypeAnswered(api, sel, res, TypeOf(gv, res))
  {
    hide GetOnly, Selected;
  }

  lemma {:induction false} TypesAnsweredIff(api: Api, sel: Selector, gv: GroupVersion, resources: seq<APIResource>,
                                            m: Gathered)
    ensures GatherTypes(api, sel, gv, resources, m).Some? <==>
            forall res | res in resources :: TypeAnswered(api, sel, res, TypeOf(gv, res))
  {
    hide GatherType, TypeAnswered, TypeOf;
    if resources != [] {
      var n := |resources| - 1;
      TypesAnsweredIff(api, sel, gv, resources[..n], m);
      assert resources == resources[..n] + [resources[n]];
      if GatherTypes(api, sel, gv, resources[..n], m).Some? {
        TypeAnsweredIff(api, sel, gv, resources[n], GatherTypes(api, sel, gv, resources[..n], m).value);
      }
    }
  }

  lemma SelectorAnsweredIff(api: Api, sel: Selector, m: Gathered)
    ensures GatherSelector(api, sel, m).Some? <==> Answered(api, sel)
  {
    hide GatherTypes, TypeAnswered, TypeOf, KeepsKind, ParseGroupVersion;
    KindFilteredKept(api.rx, sel, Discovered(api, sel.apiVersion));
    if ParseGroupVersion(sel.apiVersion).Some? {
      TypesAnsweredIff(api, sel, ParseGroupVersion(sel.apiVersion).value,
                       KindFiltered(api.rx, sel, Discovered(api, sel.apiVersion)), m);
    }
  }

  /** Gathering fails only where a call does or a pattern does not compile. */
  lemma {:induction false} GatherSucceedsIff(api: Api, sels: seq<Selector>)
    ensures GatherAll(api, sels).Some? <==> forall sel | sel in sels :: Answered(api, sel)
  {
    hide GatherSelector, Answered;
    if sels != [] {
      var n := |sels| - 1;
      GatherSucceedsIff(api, sels[..n]);
      assert sels == sels[..n] + [sels[n]];
      if GatherAll(api, sels[..n]).Some? {
        SelectorAnsweredIff(api, sels[n], GatherAll(api, sels[..n]).value);
      }
    }
  }

  // ---- types that can only be read one by one ----

  predicate ReadSingly(res: APIResource) {
    '/' !in res.name && "list" !in res.verbs && "get" in res.verbs
  }

  /** What each read of the type `g` brings, read by read. */
  function TypeReads(api: Api, sel: Selector, gv: GroupVersion, resources: seq<APIResource>, g: GVResource)
    : seq<seq<Item>> {
    if resources == [] then []
    else
      var n := |resources| - 1;
      var init := TypeReads(api, sel, gv, resources[..n], g);
      var items := GetOnly(api, sel, resources[n], TypeOf(gv, resources[n]));
      if ReadSingly(resources[n]) && ResultKey(gv, resources[n]) == g && items.Some? then init + [items.value] else init
  }

  /** ... and over the selectors, in order. */
  function Reads(api: Api, sels: seq<Selector>, g: GVResource): seq<seq<Item>> {
    if sels == [] then []
    else
      var n := |sels| - 1;
      var init := Reads(api, sels[..n], g);
      match ParseGroupVersion(sels[n].apiVersion)
      case None => init
      case Some(gv) => init + TypeReads(api, sels[n], gv,
                                        KindFiltered(api.rx, sels[n], Discovered(api, sels[n].apiVersion)), g)
  }

  /** The selector keeps the type `g`, which can only be read object by object, and reads `brought`. */
  predicate ReadBy(api: Api, sel: Selector, res: APIResource, g: GVResource, brought: seq<Item>) {
    && Spells(sel.apiVersion, g.group, g.version)
    && sel.apiVersion in api.discovery && res in api.discovery[sel.apiVersion] && KeepsKind(api.rx, sel, res)
    && res.name == g.name && res.namespaced == g.namespaced
    && '/' !in res.name && "list" !in res.verbs && "get" in res.verbs
    && GetOnly(api, sel, res, GVR(g.group, g.version, g.name)) == Some(brought)
  }

  lemma {:induction false} TypeReadsMembers(api: Api, sel: Selector, gv: GroupVersion, resources: seq<APIResource>,
                                            g: GVResource, brought: seq<Item>)
    ensures brought in TypeReads(api, sel, gv, resources, g) <==>
            exists res | res in resources :: ReadSingly(res) && ResultKey(gv, res) == g
              && GetOnly(api, sel, res, TypeOf(gv, res)) == Some(brought)
  {
    hide ReadSingly, GetOnly, ResultKey, TypeOf;
    if resources != [] {
      var n := |resources| - 1;
      TypeReadsMembers(api, sel, gv, resources[..n], g, brought);
      assert resources == resources[..n] + [resources[n]];
    }
  }

  lemma SelectorReads(api: Api, sel: Selector, gv: GroupVersion, g: GVResource, brought: seq<Item>)
    requires ParseGroupVersion(sel.apiVersion) == Some(gv)
    ensures brought in TypeReads(api, sel, gv, KindFiltered(api.rx, sel, Discovered(api, sel.apiVersion)), g) <==>
            exists res :: ReadBy(api, sel, res, g, brought)
  {
    hide KeepsKind, GetOnly, ParseGroupVersion, Spells, TypeReads, KindFiltered;
    var kept := KindFiltered(api.rx, sel, Discovered(api, sel.apiVersion));
    KindFilteredKept(api.rx, sel, Discovered(api, sel.apiVersion));
    TypeReadsMembers(api, sel, gv, kept, g, brought);
    ParseGroupVersionIff(sel.apiVersion, g.group, g.version);
    forall res ensures ReadBy(api, sel, res, g, brought) <==>
                       res in kept && ReadSingly(res) && ResultKey(gv, res) == g
                       && GetOnly(api, sel, res, TypeOf(gv, res)) == Some(brought) {
    }
  }

  /** The reads are those of the selectors that keep the type. */
  lemma {:induction false} ReadsIff(api: Api, sels: seq<Selector>, g: GVResource, brought: seq<Item>)
    ensures brought in Reads(api, sels, g) <==>
            exists sel, res | sel in sels :: ReadBy(api, sel, res, g, brought)
  {
    hide TypeReads, ParseGroupVersion, KindFiltered, ReadBy;
    if sels != [] {
      var n := |sels| - 1;
      var sel := sels[n];
      ReadsIff(api, sels[..n], g, brought);
      assert sels == sels[..n] + [sel];
      if ParseGroupVersion(sel.apiVersion).Some? {
        SelectorReads(api, sel, ParseGroupVersion(sel.apiVersion).value, g, brought);
      } else {
        NothingRead(api, sel, g, brought);
      }
    }
  }

  lemma NothingRead(api: Api, sel: Selector, g: GVResource, brought: seq<Item>)
    requires ParseGroupVersion(sel.apiVersion).None?
    ensures forall res :: !ReadBy(api, sel, res, g, brought)
  {
    hide ParseGroupVersion, Spells, GetOnly, KeepsKind;
    ParseGroupVersionIff(sel.apiVersion, g.group, g.version);
  }

  /** No selector reaches `g` as a type that can be listed. */
  ghost predicate NeverListable(api: Api, g: GVResource) {
    forall apiVersion, res | apiVersion in api.discovery && res in api.discovery[apiVersion] ::
      var gv := ParseGroupVersion(apiVersion);
      gv.Some? && ResultKey(gv.value, res) == g ==> !Listable(res)
  }

  function LastOr(brought: seq<seq<Item>>, otherwise: seq<Item>): seq<Item> {
    if brought == [] then otherwise else brought[|brought| - 1]
  }

  lemma {:induction false} TypesRead(api: Api, sel: Selector, gv: GroupVersion, resources: seq<APIResource>,
                                     m: Gathered, g: GVResource)
    requires GatherTypes(api, sel, gv, resources, m).Some?
    requires forall res | res in resources && ResultKey(gv, res) == g :: !Listable(res)
    ensures At(GatherTypes(api, sel, gv, resources, m).value, g) ==
            LastOr(TypeReads(api, sel, gv, resources, g), At(m, g))
  {
    hide Selected, GetOnly, ListFails;
    if resources != [] {
      var n := |resources| - 1;
      TypesRead(api, sel, gv, resources[..n], m, g);
      assert resources[n] in resources;
    }
  }

  /** Of a type that cannot be listed only the last read is gathered: it replaces what earlier selectors read. */
  lemma {:induction false} GetOnlyKeepsLastRead(api: Api, sels: seq<Selector>, g: GVResource)
    requires GatherAll(api, sels).Some? && NeverListable(api, g)
    ensures At(GatherAll(api, sels).value, g) == LastOr(Reads(api, sels, g), [])
  {
    hide GatherTypes, TypeReads, ParseGroupVersion;
    if sels != [] {
      var n := |sels| - 1;
      GetOnlyKeepsLastRead(api, sels[..n], g);
      var sel := sels[n];
      var gv := ParseGroupVersion(sel.apiVersion).value;
      KindFilteredKept(api.rx, sel, Discovered(api, sel.apiVersion));
      TypesRead(api, sel, gv, KindFiltered(api.rx, sel, Discovered(api, sel.apiVersion)),
                GatherAll(api, sels[..n]).value, g);
    }
  }

  /** So it is the concatenation that a listable type would get exactly if every read but the last came back empty. */
  lemma GetOnlyConcatenatesIff(api: Api, sels: seq<Selector>, g: GVResource)
    requires GatherAll(api, sels).Some? && NeverListable(api, g)
    ensures var brought := Reads(api, sels, g);
            At(GatherAll(api, sels).value, g) == Concat(brought) <==>
              forall i | 0 <= i < |brought| - 1 :: brought[i] == []
  {
    hide GatherAll, Reads;
    var brought := Reads(api, sels, g);
    GetOnlyKeepsLastRead(api, sels, g);
    if brought != [] {
      ConcatNothingIff(brought[..|brought| - 1]);
      assert |Concat(brought)| == |Concat(brought[..|brought| - 1])| + |brought[|brought| - 1]|;
    }
  }

  lemma {:induction false} ConcatNothingIff(pages: seq<seq<Item>>)
    ensures Concat(pages) == [] <==> forall i | 0 <= i < |pages| :: pages[i] == []
  {
    if pages != [] {
      ConcatNothingIff(pages[..|pages| - 1]);
    }
  }

  /** One object for each name, in order, or no answer. */
  lemma {:induction false} GetNamesIff(api: Api, gvr: GVR, ns: string, names: seq<string>, items: seq<Item>)
    ensures GetNames(api, gvr, ns, names) == Some(items) <==>
            |items| == |names| && forall j | 0 <= j < |names| :: api.get(gvr, ns, names[j]) == Some(items[j])
  {
    if names != [] {
      var n := |names| - 1;
      if GetNames(api, gvr, ns, names) == Some(items) {
        var init := GetNames(api, gvr, ns, names[..n]).value;
        GetNamesIff(api, gvr, ns, names[..n], init);
        assert forall j | 0 <= j < n :: items[j] == init[j] && names[..n][j] == names[j];
      }
      if |items| == |names| && forall j | 0 <= j < |names| :: api.get(gvr, ns, names[j]) == Some(items[j]) {
        GetNamesIff(api, gvr, ns, names[..n], items[..n]);
        assert items == items[..n] + [items[n]];
      }
    }
  }

  /** `items` are the objects of each name in each namespace, namespace by namespace. */
  predicate ReadGrid(api: Api, gvr: GVR, namespaces: seq<string>, names: seq<string>, items: seq<Item>) {
    && |items| == |namespaces| * |names|
    && forall i | 0 <= i < |namespaces| :: ReadRow(api, gvr, namespaces[i], names, items, i * |names|)
  }

  predicate ReadRow(api: Api, gvr: GVR, ns: string, names: seq<string>, items: seq<Item>, from: nat) {
    && from + |names| <= |items|
    && forall j | 0 <= j < |names| :: api.get(gvr, ns, names[j]) == Some(items[from + j])
  }

  lemma ReadRowSlice(api: Api, gvr: GVR, ns: string, names: seq<string>, items: seq<Item>, from: nat, upTo: nat)
    requires from + |names| <= upTo <= |items|
    ensures ReadRow(api, gvr, ns, names, items[..upTo], from) <==> ReadRow(api, gvr, ns, names, items, from)
  {
    assert forall k | 0 <= k < upTo :: items[..upTo][k] == items[k];
  }

  lemma RowsEnd(i: nat, n: nat, width: nat)
    requires i < n
    ensures i * width + width <= n * width
  {
    assert n * width == (n - 1) * width + width;
    if i + 1 < n {
      RowsEnd(i, n - 1, width);
    }
  }

  lemma ReadGridSnoc(api: Api, gvr: GVR, namespaces: seq<string>, names: seq<string>, items: seq<Item>, n: nat)
    requires n + 1 == |namespaces| && |items| == |namespaces| * |names|
    ensures n * |names| + |names| == |items|
    ensures ReadGrid(api, gvr, namespaces, names, items) <==>
              && ReadGrid(api, gvr, namespaces[..n], names, items[..n * |names|])
              && ReadRow(api, gvr, namespaces[n], names, items, n * |names|)
  {
    hide ReadRow;
    RowsEnd(n, n + 1, |names|);
    forall i | 0 <= i < n
      ensures i * |names| + |names| <= n * |names|
      ensures ReadRow(api, gvr, namespaces[i], names, items[..n * |names|], i * |names|) <==>
              ReadRow(api, gvr, namespaces[i], names, items, i * |names|)
    {
      RowsEnd(i, n, |names|);
      ReadRowSlice(api, gvr, namespaces[i], names, items, i * |names|, n * |names|);
    }
  }

  lemma {:induction false} GetNamespacesIff(api: Api, gvr: GVR, namespaces: seq<string>, names: seq<string>,
                                            items: seq<Item>)
    ensures GetNamespaces(api, gvr, namespaces, names) == Some(items) <==>
            ReadGrid(api, gvr, namespaces, names, items)
  {
    hide ReadGrid, GetNames;
    if namespaces == [] {
      EmptyGrid(api, gvr, names, items);
    } else {
      var n := |namespaces| - 1;
      if GetNamespaces(api, gvr, namespaces, names) == Some(items) {
        var init := GetNamespaces(api, gvr, namespaces[..n], names).value;
        var more := GetNames(api, gvr, namespaces[n], names).value;
        GetNamespacesIff(api, gvr, namespaces[..n], names, init);
        GetNamesIff(api, gvr, namespaces[n], names, more);
        GridSize(api, gvr, namespaces[..n], names, init);
        RowsEnd(n, n + 1, |names|);
        assert items[..|init|] == init;
        ReadGridSnoc(api, gvr, namespaces, names, items, n);
      }
      if ReadGrid(api, gvr, namespaces, names, items) {
        GridSize(api, gvr, namespaces, names, items);
        ReadGridSnoc(api, gvr, namespaces, names, items, n);
        var from := n * |names|;
        GetNamespacesIff(api, gvr, namespaces[..n], names, items[..from]);
        GetNamesIff(api, gvr, namespaces[n], names, items[from..]);
        assert items == items[..from] + items[from..];
      }
    }
  }

  lemma EmptyGrid(api: Api, gvr: GVR, names: seq<string>, items: seq<Item>)
    ensures ReadGrid(api, gvr, [], names, items) <==> items == []
  {
  }

  lemma GridSize(api: Api, gvr: GVR, namespaces: seq<string>, names: seq<string>, items: seq<Item>)
    requires ReadGrid(api, gvr, namespaces, names, items)
    ensures |items| == |namespaces| * |names|
  {
  }

  /** What a read of a type that cannot be listed brings: one object for each listed name, in each listed namespace
      where the type has them, and nothing else; if one is not there, no answer at all. */
  lemma GetOnlyIff(api: Api, sel: Selector, res: APIResource, gvr: GVR, items: seq<Item>)
    ensures GetOnly(api, sel, res, gvr) == Some(items) <==>
            if res.namespaced then ReadGrid(api, gvr, sel.namespaces, sel.resourceNames, items)
            else ReadGrid(api, gvr, [""], sel.resourceNames, items)
  {
    hide ReadGrid, GetNamespaces, GetNames;
    var names := sel.resourceNames;
    if res.namespaced {
      GetNamespacesIff(api, gvr, sel.namespaces, names, items);
      if sel.namespaces == [] {
        EmptyGrid(api, gvr, names, items);
      } else if names == [] {
        EmptyNames(api, gvr, sel.namespaces, items);
      }
    } else {
      GetNamesIff(api, gvr, "", names, items);
      SingleRow(api, gvr, names, items);
      if names == [] {
        EmptyNames(api, gvr, [""], items);
      }
    }
  }

  lemma EmptyNames(api: Api, gvr: GVR, namespaces: seq<string>, items: seq<Item>)
    ensures ReadGrid(api, gvr, namespaces, [], items) <==> items == []
  {
  }

  lemma SingleRow(api: Api, gvr: GVR, names: seq<string>, items: seq<Item>)
    ensures ReadGrid(api, gvr, [""], names, items) <==>
            |items| == |names| && forall j | 0 <= j < |names| :: api.get(gvr, "", names[j]) == Some(items[j])
  {
    if ReadGrid(api, gvr, [""], names, items) {
      assert ReadRow(api, gvr, [""][0], names, items, 0 * |names|);
    }
  }
}
