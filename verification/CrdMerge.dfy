/** Rolling a CRD back without losing the versions objects are stored under. */
module CrdMerge {
  import opened Results

  /** What stands under "schema" in one entry of spec.versions. */
  datatype Schema = NoSchema | SchemaMap(openAPIV3Schema: string) | OtherSchema

  /** One entry of spec.versions. Go reads it from untyped JSON: it may not be a map, and its name may not be a
      string. */
  datatype Version =
    | NotAMap
    | Version(name: Option<string>, storage: bool, schema: Schema, rest: string)

  type Versions = seq<Version>

  /** The CRD from the archive, updated in place before it is applied. */
  class BackupCrd {
    var versions: Versions

    constructor (versions: Versions)
      ensures this.versions == versions
    {
      this.versions := versions;
    }
  }

  function NameOf(v: Version): string {
    if v.Version? && v.name.Some? then v.name.value else ""
  }

  function Names(vs: Versions): set<string> {
    set i | 0 <= i < |vs| && vs[i].Version? && vs[i].name.Some? :: vs[i].name.value
  }

  predicate Extra(v: Version, known: set<string>) {
    v.Version? && NameOf(v) !in known
  }

  /** The entries of `live` the backup lacks, demoted from storage. */
  function Extras(live: Versions, known: set<string>): Versions {
    if live == [] then []
    else
      var n := |live| - 1;
      if Extra(live[n], known) then Extras(live[..n], known) + [live[n].(storage := false)]
      else Extras(live[..n], known)
  }

  function Merged(backup: Versions, live: Versions): Versions {
    backup + Extras(live, Names(backup))
  }

  /** mergeVersionsFromLiveCRD, with `live` as the server returns it; None when the CRD does not exist there. */
  method MergeVersionsFromLiveCrd(backup: BackupCrd, live: Option<Versions>)
    modifies backup
    ensures backup.versions == if live.None? then old(backup.versions) else Merged(old(backup.versions), live.value)
  {
    if live.None? {
      return;
    }
    var backupSpecVersions := backup.versions;
    var backupVersionNames := {};
    for i := 0 to |backupSpecVersions|
      invariant backupVersionNames == Names(backupSpecVersions[..i]) && backup.versions == old(backup.versions)
    {
      assert backupSpecVersions[..i + 1] == backupSpecVersions[..i] + [backupSpecVersions[i]];
      NamesAppend(backupSpecVersions[..i], backupSpecVersions[i]);
      var v := backupSpecVersions[i];
      if v.NotAMap? {
        continue;
      }
      if v.name.Some? {
        backupVersionNames := backupVersionNames + {v.name.value};
      }
    }
    assert backupSpecVersions[..|backupSpecVersions|] == backupSpecVersions;
    assert backup.versions + [] == backup.versions;
    var added: seq<string> := [];
    for i := 0 to |live.value|
      invariant backupSpecVersions == backup.versions + Extras(live.value[..i], backupVersionNames)
      invariant backup.versions == old(backup.versions)
      invariant |added| == |Extras(live.value[..i], backupVersionNames)|
    {
      assert live.value[..i + 1][..i] == live.value[..i];
      var v := live.value[i];
      if v.NotAMap? || NameOf(v) in backupVersionNames {
        continue;
      }
      backupSpecVersions := backupSpecVersions + [v.(storage := false)];
      added := added + [NameOf(v)];
    }
    assert live.value[..|live.value|] == live.value;
    if added == [] {
      return;
    }
    backup.versions := backupSpecVersions;
  }

  lemma NamesAppend(vs: Versions, v: Version)
    ensures Names(vs + [v]) == Names(vs) + if v.Version? && v.name.Some? then {v.name.value} else {}
  {
    var more := vs + [v];
    forall name | name in Names(vs) ensures name in Names(more) {
      var i :| 0 <= i < |vs| && vs[i].Version? && vs[i].name.Some? && vs[i].name.value == name;
      assert more[i] == vs[i];
    }
    if v.Version? && v.name.Some? {
      assert more[|vs|] == v;
    }
  }

  /** What the API server asks of spec.versions. */
  ghost predicate ValidSpec(vs: Versions) {
    && (forall i | 0 <= i < |vs| :: vs[i].Version? && vs[i].name.Some?)
    && (forall i, j | 0 <= i < j < |vs| :: vs[i].name != vs[j].name)
    && StorageCount(vs) == 1
  }

  function StorageCount(vs: Versions): nat {
    if vs == [] then 0
    else
      var n := |vs| - 1;
      StorageCount(vs[..n]) + if vs[n].Version? && vs[n].storage then 1 else 0
  }

  lemma {:induction false} StorageCountConcat(a: Versions, b: Versions)
    ensures StorageCount(a + b) == StorageCount(a) + StorageCount(b)
    decreases |b|
  {
    if b == [] {
      assert a + b == a;
    } else {
      var n := |b| - 1;
      assert (a + b)[..|a| + n] == a + b[..n];
      StorageCountConcat(a, b[..n]);
    }
  }

  lemma {:induction false} ExtrasNames(live: Versions, known: set<string>)
    requires forall i | 0 <= i < |live| :: live[i].Version? && live[i].name.Some?
    ensures Names(Extras(live, known)) == Names(live) - known
    ensures forall i | 0 <= i < |Extras(live, known)| ::
              Extras(live, known)[i].Version? && Extras(live, known)[i].name.Some? && !Extras(live, known)[i].storage
  {
    if live != [] {
      var n := |live| - 1;
      assert live == live[..n] + [live[n]];
      ExtrasNames(live[..n], known);
      NamesAppend(live[..n], live[n]);
      if Extra(live[n], known) {
        NamesAppend(Extras(live[..n], known), live[n].(storage := false));
      }
    }
  }

  lemma {:induction false} ExtrasDistinct(live: Versions, known: set<string>)
    requires forall i | 0 <= i < |live| :: live[i].Version? && live[i].name.Some?
    requires forall i, j | 0 <= i < j < |live| :: live[i].name != live[j].name
    ensures forall i | 0 <= i < |Extras(live, known)| ::
              Extras(live, known)[i].Version? && Extras(live, known)[i].name.Some?
    ensures forall i, j | 0 <= i < j < |Extras(live, known)| ::
              Extras(live, known)[i].name != Extras(live, known)[j].name
  {
    if live != [] {
      var n := |live| - 1;
      ExtrasDistinct(live[..n], known);
      ExtrasNames(live[..n], known);
      assert NameOf(live[n]) !in Names(live[..n]);
      FreshName(Extras(live[..n], known), NameOf(live[n]));
    }
  }

  lemma {:induction false} NoStorage(vs: Versions)
    requires forall i | 0 <= i < |vs| :: vs[i].Version? && !vs[i].storage
    ensures StorageCount(vs) == 0
  {
    if vs != [] {
      NoStorage(vs[..|vs| - 1]);
    }
  }

  /** Every extra entry comes from a distinct live one, with storage off. */
  lemma ExtrasShape(live: Versions, known: set<string>)
    requires forall i | 0 <= i < |live| :: live[i].Version? && live[i].name.Some?
    requires forall i, j | 0 <= i < j < |live| :: live[i].name != live[j].name
    ensures var extras := Extras(live, known);
            && (forall i | 0 <= i < |extras| :: extras[i].Version? && extras[i].name.Some? && !extras[i].storage)
            && (forall i, j | 0 <= i < j < |extras| :: extras[i].name != extras[j].name)
            && StorageCount(extras) == 0
            && Names(extras) == Names(live) - known
  {
    ExtrasNames(live, known);
    ExtrasDistinct(live, known);
    NoStorage(Extras(live, known));
  }

  lemma FreshName(vs: Versions, name: string)
    requires name !in Names(vs)
    ensures forall i | 0 <= i < |vs| && vs[i].Version? && vs[i].name.Some? :: vs[i].name.value != name
  {
  }

  lemma NamesConcat(a: Versions, b: Versions)
    ensures Names(a + b) == Names(a) + Names(b)
  {
    var c := a + b;
    forall name | name in Names(c) ensures name in Names(a) + Names(b) {
      var i :| 0 <= i < |c| && c[i].Version? && c[i].name.Some? && c[i].name.value == name;
      assert c[i] == if i < |a| then a[i] else b[i - |a|];
    }
    forall name | name in Names(a) ensures name in Names(c) {
      var i :| 0 <= i < |a| && a[i].Version? && a[i].name.Some? && a[i].name.value == name;
      assert c[i] == a[i];
    }
    forall name | name in Names(b) ensures name in Names(c) {
      var i :| 0 <= i < |b| && b[i].Version? && b[i].name.Some? && b[i].name.value == name;
      assert c[|a| + i] == b[i];
    }
  }

  /** The merged CRD keeps the backup's entries as they are, adds exactly the missing live names, and is a valid
      spec. */
  lemma MergedIsValid(backup: Versions, live: Versions)
    requires ValidSpec(backup) && ValidSpec(live)
    ensures backup <= Merged(backup, live) && ValidSpec(Merged(backup, live))
    ensures Names(Merged(backup, live)) == Names(backup) + Names(live)
  {
    var extras := Extras(live, Names(backup));
    var merged := backup + extras;
    ExtrasShape(live, Names(backup));
    StorageCountConcat(backup, extras);
    NamesConcat(backup, extras);
    forall i, j | 0 <= i < j < |merged| ensures merged[i].name != merged[j].name {
      if i < |backup| <= j {
        assert merged[i].name.value in Names(backup);
        assert extras[j - |backup|].name.value in Names(extras);
      }
    }
  }

  lemma {:induction false} NothingExtra(live: Versions, known: set<string>)
    requires forall i | 0 <= i < |live| :: live[i].Version? && live[i].name.Some?
    requires Names(live) <= known
    ensures Extras(live, known) == []
  {
    if live != [] {
      var n := |live| - 1;
      assert live == live[..n] + [live[n]];
      NamesAppend(live[..n], live[n]);
      NothingExtra(live[..n], known);
    }
  }

  /** Merging again, with the old live versions or with the merged CRD itself, adds nothing. */
  lemma MergeIsIdempotent(backup: Versions, live: Versions)
    requires ValidSpec(backup) && ValidSpec(live)
    ensures var merged := Merged(backup, live); Merged(merged, live) == merged == Merged(merged, merged)
  {
    MergedIsValid(backup, live);
    var merged := Merged(backup, live);
    NothingExtra(live, Names(merged));
    NothingExtra(merged, Names(merged));
  }

  // ---- over any run of upgrades and restores ----

  /** A CRD as the server keeps it; `stored` is status.storedVersions. */
  datatype LiveCrd = LiveCrd(versions: Versions, stored: set<string>)

  function StorageName(vs: Versions): string {
    if vs == [] then ""
    else
      var n := |vs| - 1;
      if vs[n].Version? && vs[n].storage then NameOf(vs[n]) else StorageName(vs[..n])
  }

  ghost predicate Accepts(crd: LiveCrd, vs: Versions) {
    ValidSpec(vs) && crd.stored <= Names(vs)
  }

  datatype Event =
    | Upgrade(versions: Versions)
    | RestoreBackup(backup: Versions)
    | DropStored(keep: set<string>)

  /** The server refuses what it does not accept; the new storage version joins storedVersions. */
  ghost function Replace(crd: LiveCrd, vs: Versions): LiveCrd {
    if Accepts(crd, vs) then LiveCrd(vs, crd.stored + {StorageName(vs)}) else crd
  }

  ghost function Apply(crd: LiveCrd, e: Event): LiveCrd {
    match e
    case Upgrade(vs) => Replace(crd, vs)
    case RestoreBackup(backup) => Replace(crd, Merged(backup, crd.versions))
    // a storage migration forgets versions no object is stored under any more
    case DropStored(keep) => crd.(stored := crd.stored * (keep + {StorageName(crd.versions)}))
  }

  ghost function Run(crd: LiveCrd, events: seq<Event>): LiveCrd
    decreases |events|
  {
    if events == [] then crd else Run(Apply(crd, events[0]), events[1..])
  }

  ghost predicate LiveValid(crd: LiveCrd) {
    Accepts(crd, crd.versions) && StorageName(crd.versions) in crd.stored
  }

  lemma {:induction false} StorageNameIsName(vs: Versions)
    requires forall i | 0 <= i < |vs| :: vs[i].Version? && vs[i].name.Some?
    requires StorageCount(vs) > 0
    ensures StorageName(vs) in Names(vs)
  {
    var n := |vs| - 1;
    assert vs == vs[..n] + [vs[n]];
    NamesAppend(vs[..n], vs[n]);
    if !vs[n].storage {
      StorageNameIsName(vs[..n]);
    }
  }

  lemma StepKeepsValid(crd: LiveCrd, e: Event)
    requires LiveValid(crd)
    ensures LiveValid(Apply(crd, e))
  {
    hide ValidSpec;
    match e
    case Upgrade(vs) => if Accepts(crd, vs) { ValidSpecStorage(vs); }
    case RestoreBackup(backup) =>
      if Accepts(crd, Merged(backup, crd.versions)) { ValidSpecStorage(Merged(backup, crd.versions)); }
    case DropStored(keep) =>
  }

  lemma ValidSpecStorage(vs: Versions)
    requires ValidSpec(vs)
    ensures StorageName(vs) in Names(vs)
  {
    StorageNameIsName(vs);
  }

  /** After any run of upgrades, restores and storage migrations, restoring any valid backup is accepted:
      no stored version is ever missing, and the backup's storage version takes over. */
  lemma {:induction false} RestoreAlwaysAccepted(crd: LiveCrd, events: seq<Event>, backup: Versions)
    requires LiveValid(crd) && ValidSpec(backup)
    ensures var live := Run(crd, events);
            && LiveValid(live) && Accepts(live, Merged(backup, live.versions))
            && Apply(live, RestoreBackup(backup)).versions == Merged(backup, live.versions)
            && StorageName(Merged(backup, live.versions)) == StorageName(backup)
    decreases |events|
  {
    hide ValidSpec;
    if events == [] {
      MergedIsValid(backup, crd.versions);
      MergedStorage(backup, crd.versions);
    } else {
      StepKeepsValid(crd, events[0]);
      RestoreAlwaysAccepted(Apply(crd, events[0]), events[1..], backup);
    }
  }

  lemma MergedStorage(backup: Versions, live: Versions)
    requires ValidSpec(backup) && ValidSpec(live)
    ensures StorageName(Merged(backup, live)) == StorageName(backup)
  {
    ExtrasShape(live, Names(backup));
    StorageNameOfDemoted(backup, Extras(live, Names(backup)));
  }

  lemma {:induction false} StorageNameOfDemoted(a: Versions, b: Versions)
    requires forall i | 0 <= i < |b| :: b[i].Version? && !b[i].storage
    ensures StorageName(a + b) == StorageName(a)
    decreases |b|
  {
    if b == [] {
      assert a + b == a;
    } else {
      var n := |b| - 1;
      assert (a + b)[..|a| + n] == a + b[..n];
      StorageNameOfDemoted(a, b[..n]);
    }
  }

  // ---- what a rollback without the merge would meet ----

  /** The states a CRD goes through, one more than the events. */
  ghost predicate History(states: seq<LiveCrd>, events: seq<Event>) {
    && |states| == |events| + 1 && LiveValid(states[0])
    && forall i | 0 <= i < |events| :: states[i + 1] == Apply(states[i], events[i])
  }

  /** Objects were stored under the version at moment i: from the beginning, or because it was the storage version
      then. */
  predicate StoredUnder(states: seq<LiveCrd>, i: nat, name: string)
    requires i < |states|
  {
    StorageName(states[i].versions) == name || (i == 0 && name in states[0].stored)
  }

  /** A storage migration that leaves no object under the version. */
  predicate MigratesAway(crd: LiveCrd, e: Event, name: string) {
    e.DropStored? && name !in e.keep && StorageName(crd.versions) != name
  }

  /** Objects were stored under the version at moment i and have not been migrated away by moment n. */
  ghost predicate StillStored(states: seq<LiveCrd>, events: seq<Event>, i: nat, n: nat, name: string) {
    |states| == |events| + 1 && i <= n <= |events| && StoredUnder(states, i, name)
    && forall j | i <= j < n :: !MigratesAway(states[j], events[j], name)
  }

  lemma {:induction false} HistoryIsValid(states: seq<LiveCrd>, events: seq<Event>, n: nat)
    requires History(states, events) && n <= |events|
    ensures LiveValid(states[n])
  {
    if n > 0 {
      HistoryIsValid(states, events, n - 1);
      StepKeepsValid(states[n - 1], events[n - 1]);
      assert states[n - 1 + 1] == Apply(states[n - 1], events[n - 1]);
    }
  }

  lemma StoredStep(crd: LiveCrd, e: Event, name: string)
    requires LiveValid(crd)
    ensures name in Apply(crd, e).stored <==>
            (name in crd.stored && !MigratesAway(crd, e, name)) || StorageName(Apply(crd, e).versions) == name
  {
    hide ValidSpec, Names, Merged;
  }

  /** status.storedVersions is the memory of the run: exactly the versions stored under at some moment and not
      migrated away since. */
  lemma {:induction false} StoredIff(states: seq<LiveCrd>, events: seq<Event>, n: nat, name: string)
    requires History(states, events) && n <= |events|
    ensures name in states[n].stored <==> exists i: nat :: StillStored(states, events, i, n, name)
  {
    hide Apply, LiveValid, MigratesAway;
    HistoryIsValid(states, events, n);
    if n == 0 {
      assert name in states[0].stored ==> StillStored(states, events, 0, 0, name);
      StorageIsStored(states[0]);
    } else {
      HistoryIsValid(states, events, n - 1);
      assert states[n - 1 + 1] == Apply(states[n - 1], events[n - 1]);
      StoredIff(states, events, n - 1, name);
      StoredStep(states[n - 1], events[n - 1], name);
      if StorageName(states[n].versions) == name {
        assert StillStored(states, events, n, n, name);
      } else if name in states[n].stored {
        var i: nat :| StillStored(states, events, i, n - 1, name);
        assert StillStored(states, events, i, n, name);
      }
      if i: nat :| StillStored(states, events, i, n, name) {
        assert i < n ==> StillStored(states, events, i, n - 1, name);
      }
    }
  }

  lemma StorageIsStored(crd: LiveCrd)
    requires LiveValid(crd)
    ensures StorageName(crd.versions) in crd.stored
  {
  }

  /** Which runs of upgrades, restores and migrations make a plain rollback fail: those in which some version the
      backup lacks was stored under, and has not been migrated away since. Otherwise it is accepted. */
  lemma PlainRollbackFailsIff(states: seq<LiveCrd>, events: seq<Event>, backup: Versions)
    requires History(states, events) && ValidSpec(backup)
    ensures !Accepts(states[|events|], backup) <==>
            exists i: nat, name :: name !in Names(backup) && StillStored(states, events, i, |events|, name)
  {
    hide Apply, StillStored, ValidSpec, Names, LiveValid;
    var crd := states[|events|];
    forall name ensures name in crd.stored <==> exists i: nat :: StillStored(states, events, i, |events|, name) {
      StoredIff(states, events, |events|, name);
    }
    if !Accepts(crd, backup) {
      var name :| name in crd.stored && name !in Names(backup);
      var i: nat :| StillStored(states, events, i, |events|, name);
    }
  }

  // ---- migrating spec.preserveUnknownFields ----

  const PRESERVE_UNKNOWN_FIELDS := "{type: object, x-kubernetes-preserve-unknown-fields: true}"

  predicate Overridable(v: Version) {
    v.Version? && !v.schema.OtherSchema?
  }

  function Override(v: Version): Version
    requires Overridable(v)
  {
    v.(schema := SchemaMap(PRESERVE_UNKNOWN_FIELDS))
  }

  /** setValidationOverride as a function: entries whose schema is neither absent nor a map are lost. */
  function Overridden(vs: Versions): Versions {
    if vs == [] then []
    else
      var n := |vs| - 1;
      if Overridable(vs[n]) then Overridden(vs[..n]) + [Override(vs[n])] else Overridden(vs[..n])
  }

  method SetValidationOverride(crd: BackupCrd)
    requires forall i | 0 <= i < |crd.versions| :: crd.versions[i].Version?
    modifies crd
    ensures crd.versions == Overridden(old(crd.versions))
  {
    var objVersions := crd.versions;
    var finalOverride := [];
    for i := 0 to |objVersions|
      invariant finalOverride == Overridden(objVersions[..i])
    {
      assert objVersions[..i + 1][..i] == objVersions[..i];
      var v := objVersions[i];
      if v.schema.OtherSchema? {
        continue;
      }
      finalOverride := finalOverride + [Override(v)];
    }
    assert objVersions[..|objVersions|] == objVersions;
    crd.versions := finalOverride;
  }

  /** The override keeps the number of versions, and with it every name and storage flag in place, exactly
      when each schema is absent or a map. */
  lemma {:induction false} OverrideKeepsVersionsIff(vs: Versions)
    ensures |Overridden(vs)| <= |vs|
    ensures |Overridden(vs)| == |vs| <==> forall i | 0 <= i < |vs| :: Overridable(vs[i])
    ensures |Overridden(vs)| == |vs| ==>
              forall i | 0 <= i < |vs| ::
                vs[i].Version? && Overridden(vs)[i] == vs[i].(schema := SchemaMap(PRESERVE_UNKNOWN_FIELDS))
  {
    if vs != [] {
      var n := |vs| - 1;
      OverrideKeepsVersionsIff(vs[..n]);
    }
  }

  lemma {:induction false} OverrideKeepsStorageCount(vs: Versions)
    requires forall i | 0 <= i < |vs| :: Overridable(vs[i])
    ensures StorageCount(Overridden(vs)) == StorageCount(vs)
  {
    if vs != [] {
      var n := |vs| - 1;
      OverrideKeepsStorageCount(vs[..n]);
      StorageCountConcat(Overridden(vs[..n]), [Override(vs[n])]);
      assert [Override(vs[n])][..0] == [];
    }
  }

  /** The CRD the server gets after the override is as valid as the one before it. */
  lemma OverrideKeepsValid(vs: Versions)
    requires ValidSpec(vs) && forall i | 0 <= i < |vs| :: Overridable(vs[i])
    ensures ValidSpec(Overridden(vs)) && Names(Overridden(vs)) == Names(vs)
  {
    OverrideKeepsVersionsIff(vs);
    OverrideKeepsStorageCount(vs);
    var over := Overridden(vs);
    forall name ensures name in Names(over) <==> name in Names(vs) {
      if name in Names(over) {
        var i :| 0 <= i < |over| && over[i].Version? && over[i].name.Some? && over[i].name.value == name;
        assert vs[i].name.value == name;
      }
      if name in Names(vs) {
        var i :| 0 <= i < |vs| && vs[i].Version? && vs[i].name.Some? && vs[i].name.value == name;
        assert over[i].name.value == name;
      }
    }
  }
}
