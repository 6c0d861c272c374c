/** The offline question "which rules cover this resource?", and how far its answer mirrors the collector. */
module OfflineMatch {
  import opened Results
  import opened GoStrings
  import opened Kube
  import opened Selection

  /** The resource asked about; "" and an empty map mean "not provided". */
  datatype ResourceInfo = ResourceInfo(
    apiVersion: string,
    kind: string,
    name: string,
    namespace: string,
    labels: map<string, string>)

  /** A ResourceSet together with the chart files each selector comes from. */
  datatype AnnotatedResourceSet = AnnotatedResourceSet(name: string, selectors: seq<Selector>,
                                                       sources: seq<seq<string>>)

  datatype Caveat = NamespaceNotChecked | LabelsNotChecked | FieldsNotChecked

  datatype MatchResult = MatchResult(
    resourceSetName: string,
    selectorIndex: nat,
    selectorSources: seq<string>,
    selector: Selector,
    caveats: seq<Caveat>)

  datatype Field = KindField | NameField | NamespaceField | LabelField
  datatype MatchError = MatchError(rule: nat, resourceSetName: string, field: Field)

  /** The libraries at hand offline: regular expressions and label selectors. */
  datatype Matcher = Matcher(
    rx: Regexps,
    parses: LabelSelector -> bool,
    labelsMatch: (LabelSelector, map<string, string>) -> bool)

  // ---- kinds ----

  /** The distinct spellings tried for a kind. */
  function KindCandidates(kind: string): seq<string> {
    var lower := ToLower(kind);
    [kind] + (if lower != kind then [lower] else []) + (if HasSuffix(lower, "s") then [] else [lower + "s"])
  }

  method GetKindCandidates(kind: string) returns (out: seq<string>)
    ensures out == KindCandidates(kind)
    ensures forall i, j | 0 <= i < j < |out| :: out[i] != out[j]
  {
    var seen: set<string> := {kind};
    out := [kind];
    var lower := ToLower(kind);
    if lower !in seen {
      seen := seen + {lower};
      out := out + [lower];
    }
    if !HasSuffix(lower, "s") {
      var plural := lower + "s";
      PluralIsNew(kind);
      if plural !in seen {
        seen := seen + {plural};
        out := out + [plural];
      }
    }
  }

  lemma PluralIsNew(kind: string)
    requires !HasSuffix(ToLower(kind), "s")
    ensures ToLower(kind) + "s" != kind
  {
    assert |ToLower(kind) + "s"| == |kind| + 1;
  }

  predicate Listed(list: seq<string>, c: string) {
    exists k :: k in list && EqualFold(k, c)
  }

  /** Some spelling of the kind is in the list, ignoring case. */
  predicate Names(candidates: seq<string>, list: seq<string>) {
    exists c :: c in candidates && Listed(list, c)
  }

  predicate SomeMatches(rx: Regexps, pattern: string, candidates: seq<string>) {
    exists c :: c in candidates && rx.matches(pattern, c)
  }

  /** Case-insensitive search of a two-level list, as matchesKind and isKindExcluded both do it. */
  method AnyNamed(candidates: seq<string>, list: seq<string>) returns (found: bool)
    ensures found == Names(candidates, list)
  {
    for i := 0 to |candidates|
      invariant !Names(candidates[..i], list)
    {
      for j := 0 to |list|
        invariant !Listed(list[..j], candidates[i])
      {
        if EqualFold(list[j], candidates[i]) {
          assert Listed(list, candidates[i]);
          return true;
        }
      }
      assert list[..|list|] == list;
    }
    assert candidates[..|candidates|] == candidates;
    return false;
  }

  /** Whether a rule covers a kind. None: its pattern does not compile. */
  function KindVerdict(rx: Regexps, sel: Selector, kind: string): Option<bool> {
    var candidates := KindCandidates(kind);
    var included := !Names(candidates, sel.excludeKinds);
    if NoKindFilter(sel) then Some(true)
    else if Names(candidates, sel.kinds) then Some(included)
    else if sel.kindsRegexp == "" then Some(false)
    else if sel.kindsRegexp == "." then Some(included)
    else if !rx.compiles(sel.kindsRegexp) then None
    else Some(SomeMatches(rx, sel.kindsRegexp, candidates) && included)
  }

  method MatchesKind(rx: Regexps, sel: Selector, kind: string) returns (r: Option<bool>)
    ensures r == KindVerdict(rx, sel, kind)
  {
    if sel.kinds == [] && sel.kindsRegexp == "" {
      return Some(true);
    }
    var candidates := GetKindCandidates(kind);
    var listed := AnyNamed(candidates, sel.kinds);
    if listed {
      var excluded := AnyNamed(candidates, sel.excludeKinds);
      return Some(!excluded);
    }
    if sel.kindsRegexp == "" {
      return Some(false);
    }
    if sel.kindsRegexp == "." {
      var excluded := AnyNamed(candidates, sel.excludeKinds);
      return Some(!excluded);
    }
    if !rx.compiles(sel.kindsRegexp) {
      return None;
    }
    for i := 0 to |candidates|
      invariant !SomeMatches(rx, sel.kindsRegexp, candidates[..i])
    {
      if rx.matches(sel.kindsRegexp, candidates[i]) {
        var excluded := AnyNamed(candidates, sel.excludeKinds);
        return Some(!excluded);
      }
    }
    assert candidates[..|candidates|] == candidates;
    return Some(false);
  }

  // ---- names and namespaces ----

  /** Unlike the collector, patterns are compiled only once the exact list has failed. */
  function NameVerdict(rx: Regexps, sel: Selector, name: string): Option<bool> {
    if name !in sel.resourceNames
       && (Bad(rx, sel.resourceNameRegexp) || Bad(rx, sel.excludeResourceNameRegexp)) then None
    else Some(KeepsName(rx, sel, name))
  }

  method MatchesName(rx: Regexps, sel: Selector, name: string) returns (r: Option<bool>)
    ensures r == NameVerdict(rx, sel, name)
  {
    if sel.resourceNames == [] && sel.resourceNameRegexp == "" && sel.excludeResourceNameRegexp == "" {
      return Some(true);
    }
    for i := 0 to |sel.resourceNames|
      invariant name !in sel.resourceNames[..i]
    {
      if sel.resourceNames[i] == name {
        return Some(true);
      }
    }
    if sel.resourceNameRegexp == "" && sel.excludeResourceNameRegexp == "" {
      return Some(false);
    }
    if sel.resourceNameRegexp != "" && !rx.compiles(sel.resourceNameRegexp) {
      return None;
    }
    if sel.excludeResourceNameRegexp != "" && !rx.compiles(sel.excludeResourceNameRegexp) {
      return None;
    }
    if sel.resourceNameRegexp != "" && !rx.matches(sel.resourceNameRegexp, name) {
      return Some(false);
    }
    if sel.excludeResourceNameRegexp != "" && rx.matches(sel.excludeResourceNameRegexp, name) {
      return Some(false);
    }
    return Some(true);
  }

  function NamespaceVerdict(rx: Regexps, sel: Selector, namespace: string): Option<bool> {
    if namespace !in sel.namespaces && sel.namespaceRegexp != "." && Bad(rx, sel.namespaceRegexp) then None
    else Some(KeepsNamespace(rx, sel, namespace))
  }

  method MatchesNamespace(rx: Regexps, sel: Selector, namespace: string) returns (r: Option<bool>)
    ensures r == NamespaceVerdict(rx, sel, namespace)
  {
    if sel.namespaces == [] && sel.namespaceRegexp == "" {
      return Some(true);
    }
    for i := 0 to |sel.namespaces|
      invariant namespace !in sel.namespaces[..i]
    {
      if sel.namespaces[i] == namespace {
        return Some(true);
      }
    }
    if sel.namespaceRegexp != "" {
      if sel.namespaceRegexp == "." {
        return Some(true);
      }
      if !rx.compiles(sel.namespaceRegexp) {
        return None;
      }
      if rx.matches(sel.namespaceRegexp, namespace) {
        return Some(true);
      }
    }
    return Some(false);
  }

  // ---- one rule ----

  predicate HasNamespaceFilter(sel: Selector) {
    sel.namespaces != [] || sel.namespaceRegexp != ""
  }

  function LabelVerdict(m: Matcher, sel: LabelSelector, labels: map<string, string>): Option<bool> {
    if m.parses(sel) then Some(m.labelsMatch(sel, labels)) else None
  }

  /** The verdicts on one rule in the order they are sought; a condition without data to check it
      against has no verdict and leaves a caveat instead. */
  function Verdicts(m: Matcher, info: ResourceInfo, sel: Selector): seq<(Field, Option<bool>)> {
    [(KindField, KindVerdict(m.rx, sel, info.kind)), (NameField, NameVerdict(m.rx, sel, info.name))]
    + (if HasNamespaceFilter(sel) && info.namespace != ""
       then [(NamespaceField, NamespaceVerdict(m.rx, sel, info.namespace))] else [])
    + (if sel.labelSelector.Some? && info.labels != map[]
       then [(LabelField, LabelVerdict(m, sel.labelSelector.value, info.labels))] else [])
  }

  function Caveats(info: ResourceInfo, sel: Selector): seq<Caveat> {
    (if HasNamespaceFilter(sel) && info.namespace == "" then [NamespaceNotChecked] else [])
    + (if sel.labelSelector.Some? && info.labels == map[] then [LabelsNotChecked] else [])
    + (if sel.fieldSelectors != map[] then [FieldsNotChecked] else [])
  }

  /** The first verdict that is not a plain yes decides. */
  function FirstObjection(verdicts: seq<(Field, Option<bool>)>): Option<(Field, Option<bool>)> {
    if verdicts == [] then None
    else if verdicts[0].1 == Some(true) then FirstObjection(verdicts[1..])
    else Some(verdicts[0])
  }

  function Rule(ars: AnnotatedResourceSet, i: nat, caveats: seq<Caveat>): MatchResult
    requires i < |ars.selectors| == |ars.sources|
  {
    MatchResult(ars.name, i + 1, ars.sources[i], ars.selectors[i], caveats)
  }

  function RuleVerdict(m: Matcher, info: ResourceInfo, ars: AnnotatedResourceSet, i: nat)
    : Result<Option<MatchResult>, MatchError>
    requires i < |ars.selectors| == |ars.sources|
  {
    var sel := ars.selectors[i];
    if info.apiVersion != "" && info.apiVersion != sel.apiVersion then Ok(None)
    else
      match FirstObjection(Verdicts(m, info, sel))
      case Some((field, None)) => Err(MatchError(i + 1, ars.name, field))
      case Some((_, Some(_))) => Ok(None)
      case None => Ok(Some(Rule(ars, i, Caveats(info, sel))))
  }

  method TryMatch(m: Matcher, info: ResourceInfo, ars: AnnotatedResourceSet, i: nat)
    returns (r: Result<Option<MatchResult>, MatchError>)
    requires i < |ars.selectors| == |ars.sources|
    ensures r == RuleVerdict(m, info, ars, i)
  {
    hide KindVerdict, NameVerdict, NamespaceVerdict, LabelVerdict;
    var sel := ars.selectors[i];
    var caveats := [];
    if info.apiVersion != "" && info.apiVersion != sel.apiVersion {
      return Ok(None);
    }
    ghost var verdicts := Verdicts(m, info, sel);
    ghost var rest := verdicts;
    var kindMatch := MatchesKind(m.rx, sel, info.kind);
    if kindMatch.None? {
      return Err(MatchError(i + 1, ars.name, KindField));
    }
    if !kindMatch.value {
      return Ok(None);
    }
    rest := rest[1..];
    assert FirstObjection(verdicts) == FirstObjection(rest) && rest[0].0 == NameField;
    var nameMatch := MatchesName(m.rx, sel, info.name);
    if nameMatch.None? {
      return Err(MatchError(i + 1, ars.name, NameField));
    }
    if !nameMatch.value {
      return Ok(None);
    }
    rest := rest[1..];
    assert FirstObjection(verdicts) == FirstObjection(rest);
    if |sel.namespaces| > 0 || sel.namespaceRegexp != "" {
      if info.namespace != "" {
        var nsMatch := MatchesNamespace(m.rx, sel, info.namespace);
        if nsMatch.None? {
          return Err(MatchError(i + 1, ars.name, NamespaceField));
        }
        if !nsMatch.value {
          return Ok(None);
        }
        rest := rest[1..];
        assert FirstObjection(verdicts) == FirstObjection(rest);
      } else {
        caveats := caveats + [NamespaceNotChecked];
      }
    }
    if sel.labelSelector.Some? {
      if info.labels != map[] {
        var lblMatch := LabelVerdict(m, sel.labelSelector.value, info.labels);
        if lblMatch.None? {
          return Err(MatchError(i + 1, ars.name, LabelField));
        }
        if !lblMatch.value {
          return Ok(None);
        }
        rest := rest[1..];
        assert FirstObjection(verdicts) == FirstObjection(rest);
      } else {
        caveats := caveats + [LabelsNotChecked];
      }
    }
    assert rest == [] && FirstObjection(verdicts) == FirstObjection(rest) == None;
    if sel.fieldSelectors != map[] {
      caveats := caveats + [FieldsNotChecked];
    }
    assert caveats == Caveats(info, sel);
    return Ok(Some(MatchResult(ars.name, i + 1, ars.sources[i], sel, caveats)));
  }

  // ---- all rules ----

  ghost predicate Annotated(sets: seq<AnnotatedResourceSet>) {
    forall s | s in sets :: |s.selectors| == |s.sources|
  }

  /** The rules among the first k of one set, in order; the first error aborts. */
  function RulesOf(m: Matcher, info: ResourceInfo, ars: AnnotatedResourceSet, k: nat)
    : Result<seq<MatchResult>, MatchError>
    requires k <= |ars.selectors| == |ars.sources|
  {
    if k == 0 then Ok([])
    else
      match RulesOf(m, info, ars, k - 1)
      case Err(e) => Err(e)
      case Ok(rules) =>
        match RuleVerdict(m, info, ars, k - 1)
        case Err(e) => Err(e)
        case Ok(None) => Ok(rules)
        case Ok(Some(rule)) => Ok(rules + [rule])
  }

  function AllRules(m: Matcher, info: ResourceInfo, sets: seq<AnnotatedResourceSet>)
    : Result<seq<MatchResult>, MatchError>
    requires Annotated(sets)
  {
    if sets == [] then Ok([])
    else
      var last := sets[|sets| - 1];
      match AllRules(m, info, sets[..|sets| - 1])
      case Err(e) => Err(e)
      case Ok(rules) =>
        match RulesOf(m, info, last, |last.selectors|)
        case Err(e) => Err(e)
        case Ok(more) => Ok(rules + more)
  }

  method Check(m: Matcher, info: ResourceInfo, sets: seq<AnnotatedResourceSet>)
    returns (r: Result<seq<MatchResult>, MatchError>)
    requires Annotated(sets)
    ensures r == AllRules(m, info, sets)
  {
    hide RuleVerdict;
    var results := [];
    for i := 0 to |sets|
      invariant AllRules(m, info, sets[..i]) == Ok(results)
    {
      assert sets[..i + 1][..i] == sets[..i];
      var ars := sets[i];
      ghost var before := results;
      for j := 0 to |ars.selectors|
        invariant RulesOf(m, info, ars, j).Ok? && results == before + RulesOf(m, info, ars, j).value
      {
        var verdict := TryMatch(m, info, ars, j);
        if verdict.Err? {
          RulesErr(m, info, ars, j + 1, |ars.selectors|);
          AllErr(m, info, sets, i + 1);
          return Err(verdict.error);
        }
        if verdict.value.Some? {
          results := results + [verdict.value.value];
        }
      }
    }
    assert sets[..|sets|] == sets;
    return Ok(results);
  }

  lemma RulesErr(m: Matcher, info: ResourceInfo, ars: AnnotatedResourceSet, j: nat, k: nat)
    requires j <= k <= |ars.selectors| == |ars.sources| && RulesOf(m, info, ars, j).Err?
    ensures RulesOf(m, info, ars, k) == RulesOf(m, info, ars, j)
    decreases k
  {
    if j < k {
      RulesErr(m, info, ars, j, k - 1);
    }
  }

  lemma AllErr(m: Matcher, info: ResourceInfo, sets: seq<AnnotatedResourceSet>, i: nat)
    requires Annotated(sets) && i <= |sets| && AllRules(m, info, sets[..i]).Err?
    ensures AllRules(m, info, sets) == AllRules(m, info, sets[..i])
  {
    if i < |sets| {
      assert sets[..|sets| - 1][..i] == sets[..i];
      AllErr(m, info, sets[..|sets| - 1], i);
    } else {
      assert sets[..i] == sets;
    }
  }

  lemma {:induction false} RulesMembers(m: Matcher, info: ResourceInfo, ars: AnnotatedResourceSet, k: nat,
                                        r: MatchResult)
    requires k <= |ars.selectors| == |ars.sources| && RulesOf(m, info, ars, k).Ok?
    ensures r in RulesOf(m, info, ars, k).value <==>
              exists i | 0 <= i < k :: RuleVerdict(m, info, ars, i) == Ok(Some(r))
  {
    hide RuleVerdict;
    if k > 0 {
      RulesMembers(m, info, ars, k - 1, r);
    }
  }

  /** Some rule of the set reports r. */
  ghost predicate ReportedBy(m: Matcher, info: ResourceInfo, ars: AnnotatedResourceSet, r: MatchResult)
    requires |ars.selectors| == |ars.sources|
  {
    exists i | 0 <= i < |ars.selectors| :: RuleVerdict(m, info, ars, i) == Ok(Some(r))
  }

  ghost predicate NoErrors(m: Matcher, info: ResourceInfo, ars: AnnotatedResourceSet)
    requires |ars.selectors| == |ars.sources|
  {
    forall i | 0 <= i < |ars.selectors| :: RuleVerdict(m, info, ars, i).Ok?
  }

  /** Check never stops at a first hit: it reports exactly the rules that cover the resource, in
      every set, and fails exactly when some rule cannot be judged. */
  lemma {:induction false} CheckReportsAll(m: Matcher, info: ResourceInfo, sets: seq<AnnotatedResourceSet>,
                                           r: MatchResult)
    requires Annotated(sets)
    ensures AllRules(m, info, sets).Ok? <==> forall s | s in sets :: NoErrors(m, info, s)
    ensures AllRules(m, info, sets).Ok? ==>
              (r in AllRules(m, info, sets).value <==> exists s :: s in sets && ReportedBy(m, info, s, r))
  {
    hide RuleVerdict, NoErrors, ReportedBy;
    if sets != [] {
      var n := |sets| - 1;
      var init, last := sets[..n], sets[n];
      assert sets == init + [last];
      CheckReportsAll(m, info, init, r);
      RulesOkIff(m, info, last, r);
    }
  }

  lemma RulesOkIff(m: Matcher, info: ResourceInfo, ars: AnnotatedResourceSet, r: MatchResult)
    requires |ars.selectors| == |ars.sources|
    ensures RulesOf(m, info, ars, |ars.selectors|).Ok? <==> NoErrors(m, info, ars)
    ensures RulesOf(m, info, ars, |ars.selectors|).Ok? ==>
              (r in RulesOf(m, info, ars, |ars.selectors|).value <==> ReportedBy(m, info, ars, r))
  {
    hide RuleVerdict;
    RulesOkUpTo(m, info, ars, |ars.selectors|);
    if RulesOf(m, info, ars, |ars.selectors|).Ok? {
      RulesMembers(m, info, ars, |ars.selectors|, r);
    }
  }

  lemma {:induction false} RulesOkUpTo(m: Matcher, info: ResourceInfo, ars: AnnotatedResourceSet, k: nat)
    requires k <= |ars.selectors| == |ars.sources|
    ensures RulesOf(m, info, ars, k).Ok? <==> forall i | 0 <= i < k :: RuleVerdict(m, info, ars, i).Ok?
  {
    hide RuleVerdict;
    if k > 0 {
      RulesOkUpTo(m, info, ars, k - 1);
    }
  }

  // ---- agreement with the collector ----

  /** With patterns that compile, a name filter keeps exactly the objects whose name the offline check accepts. */
  lemma {:induction false} NamesMirrored(rx: Regexps, sel: Selector, items: seq<Item>, item: Item)
    requires !Bad(rx, sel.resourceNameRegexp) && !Bad(rx, sel.excludeResourceNameRegexp)
    ensures item in NameFiltered(rx, sel, items) <==> item in items && NameVerdict(rx, sel, item.name) == Some(true)
  {
    hide KeepsName;
    if items != [] {
      var n := |items| - 1;
      NamesMirrored(rx, sel, items[..n], item);
      assert items == items[..n] + [items[n]];
    }
  }

  lemma {:induction false} NamespacesMirrored(rx: Regexps, sel: Selector, items: seq<Item>, item: Item)
    requires !Bad(rx, sel.namespaceRegexp)
    ensures item in NamespaceFiltered(rx, sel, items) <==>
            item in items && NamespaceVerdict(rx, sel, item.namespace) == Some(true)
  {
    hide KeepsNamespace;
    if items != [] {
      var n := |items| - 1;
      NamespacesMirrored(rx, sel, items[..n], item);
      assert items == items[..n] + [items[n]];
    }
  }

  /** The offline check can see why the collector keeps the type: the plural is one it tries, or the kind alone is
      reason enough. */
  predicate Visible(rx: Regexps, sel: Selector, res: APIResource) {
    res.name in KindCandidates(res.kind) || KeepsKind(rx, sel, res.(name := res.kind))
  }

  /** Some spelling tried is listed, in whatever case, or matched. */
  predicate SeenOffline(rx: Regexps, sel: Selector, kind: string) {
    || Names(KindCandidates(kind), sel.kinds)
    || sel.kindsRegexp == "."
    || (sel.kindsRegexp != "" && SomeMatches(rx, sel.kindsRegexp, KindCandidates(kind)))
  }

  /** The collector keeps the type for its plural alone: the plural is listed or matched, the kind is not. */
  predicate KeptByPlural(rx: Regexps, sel: Selector, res: APIResource) {
    KeepsKind(rx, sel, res) && !KeepsKind(rx, sel, res.(name := res.kind))
  }

  /** What the offline check misses of the rules by which the collector keeps a type, kind exclusions apart: exactly
      those that keep it for its plural alone, when no spelling tried, lower case and naive plural included, is seen
      either. A rule that lists or matches only an irregular plural, such as Ingress's "ingresses", is one. */
  lemma KindMissedIff(rx: Regexps, sel: Selector, res: APIResource)
    requires KeepsKind(rx, sel, res) && !Bad(rx, sel.kindsRegexp) && sel.excludeKinds == []
    ensures KindVerdict(rx, sel, res.kind) == Some(false) <==>
              KeptByPlural(rx, sel, res) && !SeenOffline(rx, sel, res.kind)
    ensures KindVerdict(rx, sel, res.kind) != Some(false) ==> KindVerdict(rx, sel, res.kind) == Some(true)
  {
    var candidates := KindCandidates(res.kind);
    assert res.kind == candidates[0];
    assert !Names(candidates, sel.excludeKinds);
    if KeepsKind(rx, sel, res.(name := res.kind)) && !NoKindFilter(sel) {
      if res.kind in sel.kinds {
        EqualFoldRefl(res.kind);
        assert Listed(sel.kinds, res.kind);
        assert Names(candidates, sel.kinds);
      } else if sel.kindsRegexp != "." {
        assert SomeMatches(rx, sel.kindsRegexp, candidates);
      }
    }
  }

  /** The plural of Ingress is not among the spellings tried. */
  lemma IrregularPluralIsMissed(rx: Regexps, sel: Selector, res: APIResource)
    requires res.kind == "Ingress" && res.name == "ingresses"
    requires sel.kinds == [res.name] && sel.kindsRegexp == ""
    ensures KeepsKind(rx, sel, res) && KindVerdict(rx, sel, res.kind) == Some(false)
  {
    hide ToLower;
    var candidates := KindCandidates("Ingress");
    assert forall c | c in candidates :: |c| <= 8;
    assert |res.name| == 9;
    forall c | c in candidates ensures !Listed(sel.kinds, c) {
      EqualFoldLength(res.name, c);
    }
  }

  /** A type the collector visibly keeps is accepted offline unless one of its spellings is excluded. */
  lemma KindNotMissed(rx: Regexps, sel: Selector, res: APIResource)
    requires KeepsKind(rx, sel, res) && !Bad(rx, sel.kindsRegexp) && Visible(rx, sel, res)
    ensures KindVerdict(rx, sel, res.kind) ==
            Some(NoKindFilter(sel) || !Names(KindCandidates(res.kind), sel.excludeKinds))
  {
    var candidates := KindCandidates(res.kind);
    assert res.kind == candidates[0];
    var name := if res.name in candidates then res.name else res.kind;
    if res.kind in sel.kinds || name in sel.kinds {
      var k := if res.kind in sel.kinds then res.kind else name;
      EqualFoldRefl(k);
      assert Listed(sel.kinds, k);
      assert Names(candidates, sel.kinds);
    } else if !NoKindFilter(sel) && sel.kindsRegexp != "." {
      assert SomeMatches(rx, sel.kindsRegexp, candidates);
    }
  }

  /** The two disagree about a kind that is listed and excluded: to the collector the list wins. */
  lemma ExclusionsDiffer(rx: Regexps, sel: Selector, res: APIResource)
    requires sel.kinds == [res.kind] && sel.excludeKinds == [res.kind]
    ensures KeepsKind(rx, sel, res) && KindVerdict(rx, sel, res.kind) == Some(false)
  {
    var candidates := KindCandidates(res.kind);
    assert res.kind == candidates[0];
    EqualFoldRefl(res.kind);
    assert Listed(sel.excludeKinds, res.kind) && Listed(sel.kinds, res.kind);
    assert Names(candidates, sel.kinds) && Names(candidates, sel.excludeKinds);
  }

  /** Every pattern of the rule compiles and its label selector parses. */
  predicate Sound(m: Matcher, sel: Selector) {
    && !Bad(m.rx, sel.kindsRegexp) && !Bad(m.rx, sel.resourceNameRegexp)
    && !Bad(m.rx, sel.excludeResourceNameRegexp) && !Bad(m.rx, sel.namespaceRegexp)
    && (sel.labelSelector.Some? ==> m.parses(sel.labelSelector.value))
  }

  // ---- what a reported rule means ----

  /** As given, in lower case, or with a naive plural. */
  predicate Spelling(kind: string, c: string) {
    c == kind || c == ToLower(kind) || (!HasSuffix(ToLower(kind), "s") && c == ToLower(kind) + "s")
  }

  lemma CandidatesAreSpellings(kind: string, c: string)
    ensures c in KindCandidates(kind) <==> Spelling(kind, c)
  {
  }

  /** A spelling of the kind is listed, whatever its case, or matched, and none is excluded. */
  ghost predicate CoversKind(rx: Regexps, sel: Selector, kind: string) {
    || (sel.kinds == [] && sel.kindsRegexp == "")
    || (&& (|| sel.kindsRegexp == "."
            || (exists c, k | k in sel.kinds :: Spelling(kind, c) && EqualFold(k, c))
            || (sel.kindsRegexp != "" && exists c :: Spelling(kind, c) && rx.matches(sel.kindsRegexp, c)))
        && forall c, k | k in sel.excludeKinds && Spelling(kind, c) :: !EqualFold(k, c))
  }

  /** Everything known of the resource meets the rule. */
  ghost predicate Covers(m: Matcher, info: ResourceInfo, sel: Selector) {
    && (info.apiVersion == "" || info.apiVersion == sel.apiVersion)
    && CoversKind(m.rx, sel, info.kind)
    && KeepsName(m.rx, sel, info.name)
    && (info.namespace != "" ==> KeepsNamespace(m.rx, sel, info.namespace))
    && (info.labels != map[] && sel.labelSelector.Some? ==> m.labelsMatch(sel.labelSelector.value, info.labels))
  }

  lemma NamesIff(kind: string, list: seq<string>)
    ensures Names(KindCandidates(kind), list) <==> exists c, k | k in list :: Spelling(kind, c) && EqualFold(k, c)
  {
    hide KindCandidates, Spelling, EqualFold;
    if Names(KindCandidates(kind), list) {
      var c :| c in KindCandidates(kind) && Listed(list, c);
      CandidatesAreSpellings(kind, c);
    }
    if c, k :| k in list && Spelling(kind, c) && EqualFold(k, c) {
      CandidatesAreSpellings(kind, c);
      assert Listed(list, c);
    }
  }

  lemma SomeMatchesIff(rx: Regexps, pattern: string, kind: string)
    ensures SomeMatches(rx, pattern, KindCandidates(kind)) <==>
            exists c :: Spelling(kind, c) && rx.matches(pattern, c)
  {
    hide KindCandidates, Spelling;
    forall c ensures c in KindCandidates(kind) <==> Spelling(kind, c) {
      CandidatesAreSpellings(kind, c);
    }
  }

  lemma KindVerdictIff(rx: Regexps, sel: Selector, kind: string)
    ensures KindVerdict(rx, sel, kind) == Some(true) ==> CoversKind(rx, sel, kind)
    ensures !Bad(rx, sel.kindsRegexp) ==> KindVerdict(rx, sel, kind) == Some(CoversKind(rx, sel, kind))
  {
    hide KindCandidates, Spelling, EqualFold, Names, SomeMatches;
    NamesIff(kind, sel.kinds);
    NamesIff(kind, sel.excludeKinds);
    SomeMatchesIff(rx, sel.kindsRegexp, kind);
  }

  /** A rule is reported only if it covers the resource, and then if it is sound. */
  lemma ReportedIffCovers(m: Matcher, info: ResourceInfo, ars: AnnotatedResourceSet, i: nat)
    requires i < |ars.selectors| == |ars.sources|
    ensures var sel, verdict := ars.selectors[i], RuleVerdict(m, info, ars, i);
            && (verdict.Ok? && verdict.value.Some? ==>
                  Covers(m, info, sel) && verdict == Ok(Some(Rule(ars, i, Caveats(info, sel)))))
            && (Sound(m, sel) && Covers(m, info, sel) ==> verdict == Ok(Some(Rule(ars, i, Caveats(info, sel)))))
            && (Sound(m, sel) && !Covers(m, info, sel) ==> verdict == Ok(None))
  {
    var sel := ars.selectors[i];
    hide KeepsName, KeepsNamespace, KindVerdict, CoversKind;
    KindVerdictIff(m.rx, sel, info.kind);
    var verdicts := Verdicts(m, info, sel);
    NoObjectionIff(verdicts);
    ObjectionIsAVerdict(verdicts);
  }

  lemma {:induction false} NoObjectionIff(verdicts: seq<(Field, Option<bool>)>)
    ensures FirstObjection(verdicts) == None <==> forall v | v in verdicts :: v.1 == Some(true)
  {
    if verdicts != [] {
      NoObjectionIff(verdicts[1..]);
      assert verdicts == [verdicts[0]] + verdicts[1..];
    }
  }

  /** What the user says of the object is true of it, in full or in part. */
  predicate Describes(info: ResourceInfo, sel: Selector, res: APIResource, item: Item) {
    && (info.apiVersion == "" || info.apiVersion == sel.apiVersion)
    && info.kind == res.kind && info.name == item.name
    && (info.namespace == "" || (res.namespaced && info.namespace == item.namespace))
    && (info.labels == map[] || info.labels == item.labels)
  }

  ghost predicate SameLibraries(m: Matcher, api: Api) {
    m.rx == api.rx && m.labelsMatch == api.labelsMatch
  }

  /** No missed rule: when the collector would gather an object by a rule, that rule covers any true
      description of it, exactly if no spelling of its kind is excluded or the rule has no kind filter. */
  lemma NoMissedRule(m: Matcher, api: Api, ars: AnnotatedResourceSet, i: nat, info: ResourceInfo,
                     res: APIResource, g: GVResource, item: Item)
    requires i < |ars.selectors| == |ars.sources| && SameLibraries(m, api)
    requires SelectedAs(api, ars.selectors[i], res, g, item)
    requires Sound(m, ars.selectors[i]) && Describes(info, ars.selectors[i], res, item)
    requires Visible(m.rx, ars.selectors[i], res)
    ensures RuleVerdict(m, info, ars, i) ==
            Ok(if NoKindFilter(ars.selectors[i]) || !Names(KindCandidates(res.kind), ars.selectors[i].excludeKinds)
               then Some(Rule(ars, i, Caveats(info, ars.selectors[i]))) else None)
  {
    var sel := ars.selectors[i];
    var accepted := NoKindFilter(sel) || !Names(KindCandidates(res.kind), sel.excludeKinds);
    hide ParseGroupVersion, KeepsKind, KindCandidates, Names, Visible;
    KindNotMissed(m.rx, sel, res);
    var verdicts := Verdicts(m, info, sel);
    assert verdicts[0] == (KindField, Some(accepted)) && verdicts[1] == (NameField, Some(true)) by {
      hide KindVerdict;
    }
    assert forall v | v in verdicts[1..] :: v.1 == Some(true);
    NoObjection(verdicts[1..]);
  }

  lemma NoObjection(verdicts: seq<(Field, Option<bool>)>)
    requires forall v | v in verdicts :: v.1 == Some(true)
    ensures FirstObjection(verdicts) == None
  {
  }

  /** The same over a whole chart: with sound rules and no kind exclusions Check succeeds and its answer
      holds every rule by which the collector would gather the object. */
  lemma CheckMissesNothing(m: Matcher, api: Api, sets: seq<AnnotatedResourceSet>, ars: AnnotatedResourceSet, i: nat,
                           info: ResourceInfo, res: APIResource, g: GVResource, item: Item)
    requires Annotated(sets) && ars in sets && i < |ars.selectors| && SameLibraries(m, api)
    requires forall s, sel | s in sets && sel in s.selectors :: Sound(m, sel)
    requires SelectedAs(api, ars.selectors[i], res, g, item) && Describes(info, ars.selectors[i], res, item)
    requires Visible(m.rx, ars.selectors[i], res) && ars.selectors[i].excludeKinds == []
    ensures AllRules(m, info, sets).Ok?
    ensures Rule(ars, i, Caveats(info, ars.selectors[i])) in AllRules(m, info, sets).value
  {
    var rule := Rule(ars, i, Caveats(info, ars.selectors[i]));
    forall s | s in sets ensures NoErrors(m, info, s) {
      forall j | 0 <= j < |s.selectors| ensures RuleVerdict(m, info, s, j).Ok? {
        SoundRulesAreJudged(m, info, s, j);
      }
    }
    CheckReportsAll(m, info, sets, rule);
    hide SelectedAs, Describes, RuleVerdict, Visible;
    NoMissedRule(m, api, ars, i, info, res, g, item);
    assert ReportedBy(m, info, ars, rule);
  }

  lemma SoundRulesAreJudged(m: Matcher, info: ResourceInfo, ars: AnnotatedResourceSet, i: nat)
    requires i < |ars.selectors| == |ars.sources| && Sound(m, ars.selectors[i])
    ensures RuleVerdict(m, info, ars, i).Ok?
  {
    var verdicts := Verdicts(m, info, ars.selectors[i]);
    hide KeepsName, KeepsNamespace, Names, KindCandidates;
    assert forall v | v in verdicts :: v.1.Some?;
    ObjectionIsAVerdict(verdicts);
  }

  lemma ObjectionIsAVerdict(verdicts: seq<(Field, Option<bool>)>)
    ensures var o := FirstObjection(verdicts); o.Some? ==> o.value in verdicts && o.value.1 != Some(true)
  {
  }

  /** What of a rule went unchecked, and why. */
  lemma CaveatsIff(info: ResourceInfo, sel: Selector)
    ensures NamespaceNotChecked in Caveats(info, sel) <==>
            (sel.namespaces != [] || sel.namespaceRegexp != "") && info.namespace == ""
    ensures LabelsNotChecked in Caveats(info, sel) <==> sel.labelSelector.Some? && info.labels == map[]
    ensures FieldsNotChecked in Caveats(info, sel) <==> sel.fieldSelectors != map[]
  {
  }

  /** Check's answer: whatever it reports covers the resource, and with sound rules it reports every rule that does. */
  lemma CheckAnswers(m: Matcher, info: ResourceInfo, sets: seq<AnnotatedResourceSet>, r: MatchResult)
    requires Annotated(sets) && AllRules(m, info, sets).Ok?
    ensures r in AllRules(m, info, sets).value ==> exists ars, i: nat | ars in sets && i < |ars.selectors| ::
              Covers(m, info, ars.selectors[i])
              && r == MatchResult(ars.name, i + 1, ars.sources[i], ars.selectors[i], Caveats(info, ars.selectors[i]))
    ensures forall ars, i: nat | ars in sets && i < |ars.selectors| && Covers(m, info, ars.selectors[i])
              && Sound(m, ars.selectors[i]) ::
              MatchResult(ars.name, i + 1, ars.sources[i], ars.selectors[i], Caveats(info, ars.selectors[i]))
              in AllRules(m, info, sets).value
  {
    hide RuleVerdict, Covers, Caveats, Sound;
    CheckReportsAll(m, info, sets, r);
    if r in AllRules(m, info, sets).value {
      var ars :| ars in sets && ReportedBy(m, info, ars, r);
      var i :| 0 <= i < |ars.selectors| && RuleVerdict(m, info, ars, i) == Ok(Some(r));
      ReportedIffCovers(m, info, ars, i);
    }
    forall ars, i: nat | ars in sets && i < |ars.selectors| && Covers(m, info, ars.selectors[i])
        && Sound(m, ars.selectors[i])
      ensures Rule(ars, i, Caveats(info, ars.selectors[i])) in AllRules(m, info, sets).value
    {
      var rule := Rule(ars, i, Caveats(info, ars.selectors[i]));
      ReportedIffCovers(m, info, ars, i);
      CheckReportsAll(m, info, sets, rule);
      assert ReportedBy(m, info, ars, rule);
    }
  }

  /** A full description of an object. */
  predicate FullyDescribes(info: ResourceInfo, sel: Selector, res: APIResource, item: Item) {
    && info.apiVersion == sel.apiVersion && info.kind == res.kind && info.name == item.name
    && info.namespace == (if res.namespaced then item.namespace else "") && (res.namespaced ==> item.namespace != "")
    && info.labels == item.labels
  }

  /** No false report: described in full, an object is reported without caveats exactly if the rule leaves nothing
      unchecked, covers its kind, and the collector, kinds apart, selects it; so, where the two agree on the kind,
      exactly if the collector selects it by that rule. */
  lemma NoFalseReport(m: Matcher, api: Api, ars: AnnotatedResourceSet, i: nat, info: ResourceInfo, res: APIResource,
                      item: Item)
    requires i < |ars.selectors| == |ars.sources| && SameLibraries(m, api) && Sound(m, ars.selectors[i])
    requires FullyDescribes(info, ars.selectors[i], res, item) && Caveats(info, ars.selectors[i]) == []
    ensures var sel, reported := ars.selectors[i], RuleVerdict(m, info, ars, i) == Ok(Some(Rule(ars, i, [])));
            && (reported <==>
                  CoversKind(m.rx, sel, res.kind) && Selects(api, sel.(kinds := [], kindsRegexp := ""), res, item))
            && ((CoversKind(m.rx, sel, res.kind) <==> KeepsKind(m.rx, sel, res)) ==>
                  (reported <==> Selects(api, sel, res, item)))
  {
    hide RuleVerdict, CoversKind, Sound;
    var sel := ars.selectors[i];
    ReportedIffCovers(m, info, ars, i);
    CaveatsIff(info, sel);
    var any := sel.(kinds := [], kindsRegexp := "");
    assert KeepsKind(m.rx, any, res);
    assert KeepsName(m.rx, any, item.name) <==> KeepsName(m.rx, sel, item.name);
    assert KeepsNamespace(m.rx, any, item.namespace) <==> KeepsNamespace(m.rx, sel, item.namespace);
  }
}
