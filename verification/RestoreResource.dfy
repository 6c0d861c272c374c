/** Writing one archived object to the cluster. */
module RestoreResource {
  import opened Results
  import opened GoStrings
  import opened Kube
  import opened ArchivePath
  import opened OwnerRefs

  /** What can go wrong with the API calls for one object: they fail before anything is written, the
      status update after the write fails, or the server refuses the write with a status message. */
  datatype Fault = CallFails | StatusUpdateFails | Refused(message: string)

  /** isSettingsWebhookError: Rancher's webhook may refuse one of its own settings. */
  predicate IsSettingsWebhookError(gvr: GVR, message: string) {
    && gvr.group == "management.cattle.io" && gvr.resource == "settings"
    && Contains(message, "admission webhook") && Contains(message, "rancher.cattle.io.settings")
    && Contains(message, "denied the request")
  }

  const REGISTRATION_SECRET := "fleet.cattle.io/cluster-registration-values"

  /** These secrets are deliberately not restored, yet reported as restored. */
  predicate RegistrationSecret(info: ObjInfo, m: Manifest) {
    info.gvr.resource == "secrets" && m.secretType == Some(REGISTRATION_SECRET)
  }

  /** The manifest as written: owner uids renewed, or all references dropped when an owner is not there. */
  function Rewritten(m: Manifest, c: Cluster, mapper: RestMapper, ns: string): Result<Manifest, RefError> {
    if m.ownerRefs.None? then Ok(m)
    else
      match ResolveRefs(m.ownerRefs.value, c, mapper, ns)
      case Ok(refs) => Ok(m.(ownerRefs := Some(refs)))
      case Err(OwnerNotFound) => Ok(m.(ownerRefs := None))
      case Err(_) => Err(Unresolvable)
  }

  /** Create the object, or replace the live one at its current version. */
  function Put(c: Cluster, k: Key, m: Manifest): Cluster {
    match Get(c, k)
    case Err(_) => Create(c, k, m).value
    case Ok(live) => Update(c, k, m, live.rv).value
  }

  /** The effect of restoring one object: the cluster after it, whether it counts as restored, and
      the manifest written, if any. */
  datatype Effect = Effect(cluster: Cluster, ok: bool, written: Option<Manifest>)

  function Restored(c: Cluster, mapper: RestMapper, fault: Option<Fault>, info: ObjInfo, m: Manifest): Effect {
    if RegistrationSecret(info, m) then Effect(c, true, None)
    else
      match Rewritten(m, c, mapper, info.namespace)
      case Err(_) => Effect(c, false, None)
      case Ok(written) =>
        match fault
        case Some(CallFails) => Effect(c, false, None)
        case Some(Refused(message)) => Effect(c, IsSettingsWebhookError(info.gvr, message), None)
        case _ => Effect(Put(c, KeyOf(info), written), fault == None, Some(written))
  }

  predicate CannotResolve(ref: OwnerRef, mapper: RestMapper, ns: string) {
    ref.OwnerRef? && ref.apiVersion != "" && ref.kind != "" && OwnerOf(ref, mapper, ns).None?
  }

  /** A reference updateOwnerRefs gets past: it leaves it alone, or finds the owner. */
  predicate Passes(ref: OwnerRef, c: Cluster, mapper: RestMapper, ns: string) {
    ref.NotAMap? || ref.apiVersion == "" || ref.kind == "" ||
    (OwnerOf(ref, mapper, ns).Some? && OwnerOf(ref, mapper, ns).value.key in c.objects)
  }

  /** Discovery cannot resolve reference i, and every earlier one is left alone or has a live owner. */
  predicate FailsAt(refs: seq<OwnerRef>, c: Cluster, mapper: RestMapper, ns: string, i: nat) {
    i < |refs| && CannotResolve(refs[i], mapper, ns) && forall j | 0 <= j < i :: Passes(refs[j], c, mapper, ns)
  }

  /** The owner references that fail an object. */
  lemma RefsFailIff(refs: seq<OwnerRef>, c: Cluster, mapper: RestMapper, ns: string)
    ensures ResolveRefs(refs, c, mapper, ns) == Err(Unresolvable) <==> exists i: nat :: FailsAt(refs, c, mapper, ns, i)
  {
    hide OwnerOf, ResolveRefs, Passes;
    forall i: nat | FailsAt(refs, c, mapper, ns, i) ensures ResolveRefs(refs, c, mapper, ns) == Err(Unresolvable) {
      FailsAtPrefix(refs, c, mapper, ns, i);
      ErrorPersists(refs, i + 1, c, mapper, ns);
    }
    if ResolveRefs(refs, c, mapper, ns) == Err(Unresolvable) {
      var i := FailurePoint(refs, c, mapper, ns);
    }
  }

  lemma {:induction false} ResolvesIff(refs: seq<OwnerRef>, c: Cluster, mapper: RestMapper, ns: string)
    ensures ResolveRefs(refs, c, mapper, ns).Ok? <==> forall ref | ref in refs :: Passes(ref, c, mapper, ns)
    decreases |refs|
  {
    hide Passes, ResolveRef;
    if refs != [] {
      var n := |refs| - 1;
      var init, last := refs[..n], refs[n];
      ResolvesIff(init, c, mapper, ns);
      PassesIff(last, c, mapper, ns);
      assert refs == init + [last];
      assert forall ref :: ref in refs <==> ref in init || ref == last;
    }
  }

  lemma PassesIff(ref: OwnerRef, c: Cluster, mapper: RestMapper, ns: string)
    ensures ResolveRef(ref, c, mapper, ns).Ok? <==> Passes(ref, c, mapper, ns)
  {
    hide OwnerOf;
  }

  lemma FailsAtPrefix(refs: seq<OwnerRef>, c: Cluster, mapper: RestMapper, ns: string, i: nat)
    requires FailsAt(refs, c, mapper, ns, i)
    ensures ResolveRefs(refs[..i + 1], c, mapper, ns) == Err(Unresolvable)
  {
    hide OwnerOf, Passes;
    assert refs[..i + 1][..i] == refs[..i];
    ResolvesIff(refs[..i], c, mapper, ns);
  }

  lemma {:induction false} FailurePoint(refs: seq<OwnerRef>, c: Cluster, mapper: RestMapper, ns: string)
    returns (i: nat)
    requires ResolveRefs(refs, c, mapper, ns) == Err(Unresolvable)
    ensures FailsAt(refs, c, mapper, ns, i)
    decreases |refs|
  {
    hide OwnerOf, Passes;
    var n := |refs| - 1;
    if ResolveRefs(refs[..n], c, mapper, ns).Err? {
      i := FailurePoint(refs[..n], c, mapper, ns);
      assert forall j | 0 <= j <= i :: refs[..n][j] == refs[j];
    } else {
      i := n;
      ResolvesIff(refs[..n], c, mapper, ns);
      assert forall j | 0 <= j < n :: refs[j] == refs[..n][j] && refs[..n][j] in refs[..n];
    }
  }

  predicate SameExceptRefs(a: Manifest, b: Manifest) {
    a.(ownerRefs := None) == b.(ownerRefs := None)
  }

  /** A reference that discovery cannot resolve fails the object that carries it. */
  predicate HasUnresolvable(m: Manifest, mapper: RestMapper, ns: string) {
    exists ref | ref in RefsOf(m) :: CannotResolve(ref, mapper, ns)
  }

  /** Objects whose restore leaves them in the cluster when it succeeds. */
  predicate Effective(info: ObjInfo, m: Manifest, fault: Option<Fault>) {
    !RegistrationSecret(info, m) && fault == None
  }

  /** What the API calls decide: the object is not even sent, or none of its calls fails for good. */
  predicate Succeeds(info: ObjInfo, m: Manifest, fault: Option<Fault>) {
    || RegistrationSecret(info, m) || fault == None
    || (fault.Some? && fault.value.Refused? && IsSettingsWebhookError(info.gvr, fault.value.message))
  }

  predicate SameButUid(a: OwnerRef, b: OwnerRef) {
    a == b || (a.OwnerRef? && b.OwnerRef? && a == b.(uid := a.uid))
  }

  /** `written` is `m` with its owner references renewed, uid for uid, or dropped altogether. */
  predicate Renews(written: Manifest, m: Manifest) {
    && SameExceptRefs(written, m)
    && (written.ownerRefs.Some? ==>
          && m.ownerRefs.Some? && |written.ownerRefs.value| == |m.ownerRefs.value|
          && forall r | 0 <= r < |m.ownerRefs.value| :: SameButUid(written.ownerRefs.value[r], m.ownerRefs.value[r]))
  }

  lemma RewrittenRenews(m: Manifest, c: Cluster, mapper: RestMapper, ns: string)
    requires Rewritten(m, c, mapper, ns).Ok?
    ensures Renews(Rewritten(m, c, mapper, ns).value, m)
  {
    hide ResolveRefs, OwnerOf;
    if m.ownerRefs.Some? && ResolveRefs(m.ownerRefs.value, c, mapper, ns).Ok? {
      var refs, resolved := m.ownerRefs.value, ResolveRefs(m.ownerRefs.value, c, mapper, ns).value;
      forall r | 0 <= r < |refs| ensures SameButUid(resolved[r], refs[r]) {
        assert ResolveRef(refs[r], c, mapper, ns) == Ok(resolved[r]);
      }
    }
  }

  lemma RestoredOutcome(c: Cluster, mapper: RestMapper, fault: Option<Fault>, info: ObjInfo, m: Manifest)
    ensures var e := Restored(c, mapper, fault, info, m);
            && (e.written.Some? ==> Renews(e.written.value, m))
            && (e.ok ==> Succeeds(info, m, fault))
            && (e.ok ==> (e.written.Some? <==> Effective(info, m, fault)))
            && (!e.ok ==> !Succeeds(info, m, fault) || HasUnresolvable(m, mapper, info.namespace))
  {
    hide Renews, OwnerOf;
    var e := Restored(c, mapper, fault, info, m);
    if Rewritten(m, c, mapper, info.namespace).Ok? {
      RewrittenRenews(m, c, mapper, info.namespace);
    } else if !e.ok {
      UnresolvableCause(RefsOf(m), c, mapper, info.namespace);
    }
  }

  /** What a failing call does to an object that is sent at all: nothing is written unless only the status update
      fails, and only the webhook's refusal of a Rancher setting is no error. */
  lemma RestoredFaults(c: Cluster, mapper: RestMapper, fault: Fault, info: ObjInfo, m: Manifest)
    requires !(info.gvr.resource == "secrets"
               && m.secretType == Some("fleet.cattle.io/cluster-registration-values"))
    requires !HasUnresolvable(m, mapper, info.namespace)
    ensures var e := Restored(c, mapper, Some(fault), info, m);
            && (fault != StatusUpdateFails ==> e.cluster == c && e.written == None)
            && (fault == StatusUpdateFails ==> e.written.Some?)
            && (e.ok <==> && fault.Refused? && info.gvr.group == "management.cattle.io"
                          && info.gvr.resource == "settings" && Contains(fault.message, "admission webhook")
                          && Contains(fault.message, "rancher.cattle.io.settings")
                          && Contains(fault.message, "denied the request"))
  {
    hide Contains, CannotResolve, ResolveRefs;
    if Rewritten(m, c, mapper, info.namespace).Err? {
      UnresolvableCause(RefsOf(m), c, mapper, info.namespace);
    }
  }

  lemma {:induction false} UnresolvableCause(refs: seq<OwnerRef>, c: Cluster, mapper: RestMapper, ns: string)
    requires ResolveRefs(refs, c, mapper, ns) == Err(Unresolvable)
    ensures exists ref | ref in refs :: CannotResolve(ref, mapper, ns)
    decreases |refs|
  {
    hide OwnerOf;
    var n := |refs| - 1;
    if ResolveRefs(refs[..n], c, mapper, ns).Err? {
      UnresolvableCause(refs[..n], c, mapper, ns);
      assert forall ref | ref in refs[..n] :: ref in refs;
    } else {
      assert refs[n] in refs;
    }
  }

  /** Restoring over an object leaves it there unless it is being deleted and the archived copy has no finalizers
      to hold it. */
  predicate Survives(c: Cluster, k: Key, m: Manifest) {
    k in c.objects && c.objects[k].terminating ==> !Removable(m)
  }

  lemma PutEffect(c: Cluster, k: Key, m: Manifest)
    ensures var d := Put(c, k, m);
            && (k in d.objects <==> Survives(c, k, m))
            && (k in d.objects ==> d.objects[k].manifest == m)
            && (k in d.objects && k in c.objects ==> d.objects[k].uid == c.objects[k].uid)
            && OnlyTouches(c, d, {k})
            && (Fresher(c) ==> Fresher(d))
  {
  }

  /** Objects outside `keys` neither appear, disappear nor change. */
  ghost predicate OnlyTouches(c: Cluster, d: Cluster, keys: set<Key>) {
    forall k | k !in keys :: (k in d.objects <==> k in c.objects) && (k in c.objects ==> d.objects[k] == c.objects[k])
  }

  lemma RestoredTouches(c: Cluster, mapper: RestMapper, fault: Option<Fault>, info: ObjInfo, m: Manifest)
    ensures OnlyTouches(c, Restored(c, mapper, fault, info, m).cluster, {KeyOf(info)})
  {
    hide Rewritten;
  }

  /** An object whose restore reports success may be missing all the same: it is there exactly if it survives. */
  lemma RestoredIsThereIff(c: Cluster, mapper: RestMapper, fault: Option<Fault>, info: ObjInfo, m: Manifest)
    requires Restored(c, mapper, fault, info, m).ok && Effective(info, m, fault)
    ensures KeyOf(info) in Restored(c, mapper, fault, info, m).cluster.objects <==> Survives(c, KeyOf(info), m)
  {
    hide ResolveRefs;
    RestoredOutcome(c, mapper, fault, info, m);
    PutEffect(c, KeyOf(info), Restored(c, mapper, fault, info, m).written.value);
  }

  lemma RewrittenIsLive(m: Manifest, c: Cluster, mapper: RestMapper, ns: string)
    requires Rewritten(m, c, mapper, ns).Ok?
    ensures forall ref | ref in RefsOf(Rewritten(m, c, mapper, ns).value) :: Live(ref, c, mapper, ns)
  {
    hide ResolveRef, Live;
    var refs := RefsOf(Rewritten(m, c, mapper, ns).value);
    forall i | 0 <= i < |refs| ensures Live(refs[i], c, mapper, ns) {
      ResolvedIsLive(m.ownerRefs.value[i], c, mapper, ns);
    }
  }
}
