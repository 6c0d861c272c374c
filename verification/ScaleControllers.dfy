/** Controllers are scaled to zero before a restore and back afterwards. The saved counts travel in the
    ControllerReferences slice of a struct that is passed by value: the copies share one backing array. */
module ScaleControllers {
  import opened Results

  /** apiVersion, resource, namespace and name of a controller. */
  datatype RefKey = RefKey(apiVersion: string, resource: string, namespace: string, name: string)

  datatype ControllerRef = ControllerRef(key: RefKey, replicas: int)

  /** spec.replicas as the dynamic client returns it: absent, or of one of two integer types. */
  datatype Replicas = Missing | Int32(n: int) | Int64(n: int)

  datatype Controller = NoSpec | Spec(replicas: Replicas)

  type Live = map<RefKey, Controller>

  /** Which controllers cannot be read, and which cannot be written, at one scaling step. */
  datatype Env = Env(unreadable: set<RefKey>, unwritable: set<RefKey>)

  class Cluster {
    var controllers: Live
  }

  /** The struct OnRestoreChange passes by value. */
  datatype ObjectsFromBackup = ObjectsFromBackup(controllerReferences: array<ControllerRef>)

  const TWO_TO_THE_31 := 0x8000_0000
  const TWO_TO_THE_32 := 0x1_0000_0000

  /** Go's conversion int32(x). */
  function ToInt32(x: int): int {
    (x + TWO_TO_THE_31) % TWO_TO_THE_32 - TWO_TO_THE_31
  }

  predicate Reachable(key: RefKey, live: Live, env: Env) {
    key in live && key !in env.unreadable
  }

  /** The count scale-down saves, if it gets that far. */
  function SavedCount(key: RefKey, live: Live, env: Env): Option<int> {
    if !Reachable(key, live, env) || live[key].NoSpec? then None
    else
      match live[key].replicas
      case Missing => None
      case Int32(n) => Some(n)
      case Int64(n) => Some(ToInt32(n))
  }

  function Write(key: RefKey, count: int, live: Live, env: Env): Live {
    if key in env.unwritable then live else live[key := Spec(Int64(count))]
  }

  datatype Scaled = Scaled(refs: seq<ControllerRef>, live: Live)

  function Down(refs: seq<ControllerRef>, live: Live, env: Env): (s: Scaled)
    ensures |s.refs| == |refs|
  {
    if refs == [] then Scaled([], live)
    else
      var n := |refs| - 1;
      var s := Down(refs[..n], live, env);
      match SavedCount(refs[n].key, s.live, env)
      case None => Scaled(s.refs + [refs[n]], s.live)
      case Some(count) => Scaled(s.refs + [refs[n].(replicas := count)], Write(refs[n].key, 0, s.live, env))
  }

  /** None stands for the panic on a controller without a spec. */
  function Up(refs: seq<ControllerRef>, live: Live, env: Env): Option<Live> {
    if refs == [] then Some(live)
    else
      var n := |refs| - 1;
      match Up(refs[..n], live, env)
      case None => None
      case Some(l) =>
        if !Reachable(refs[n].key, l, env) then Some(l)
        else if l[refs[n].key].NoSpec? then None
        else Some(Write(refs[n].key, refs[n].replicas, l, env))
  }

  lemma DownNothing(live: Live, env: Env)
    ensures Down([], live, env) == Scaled([], live)
  {
  }

  lemma DownSnoc(refs: seq<ControllerRef>, k: nat, live: Live, env: Env)
    requires k < |refs|
    ensures var s, count := Down(refs[..k], live, env), SavedCount(refs[k].key, Down(refs[..k], live, env).live, env);
            Down(refs[..k + 1], live, env) ==
            if count.None? then Scaled(s.refs + [refs[k]], s.live)
            else Scaled(s.refs + [refs[k].(replicas := count.value)], Write(refs[k].key, 0, s.live, env))
  {
    assert refs[..k + 1][..k] == refs[..k];
  }

  method ScaleDown(objects: ObjectsFromBackup, cluster: Cluster, env: Env)
    modifies objects.controllerReferences, cluster
    ensures Scaled(objects.controllerReferences[..], cluster.controllers) ==
            Down(old(objects.controllerReferences[..]), old(cluster.controllers), env)
  {
    var refs := objects.controllerReferences;
    ghost var before, live := refs[..], cluster.controllers;
    hide Down, ToInt32;
    DownNothing(live, env);
    for ind := 0 to refs.Length
      invariant Scaled(refs[..ind], cluster.controllers) == Down(before[..ind], live, env)
      invariant forall j | ind <= j < refs.Length :: refs[j] == before[j]
    {
      DownSnoc(before, ind, live, env);
      var controllerRef := refs[ind];
      var key := controllerRef.key;
      if Reachable(key, cluster.controllers, env) && cluster.controllers[key].Spec? {
        var replicas := cluster.controllers[key].replicas;
        if !replicas.Missing? {
          var count := if replicas.Int32? then replicas.n else ToInt32(replicas.n);
          refs[ind] := controllerRef.(replicas := count);
          if key !in env.unwritable {
            cluster.controllers := cluster.controllers[key := Spec(Int64(0))];
          }
        }
      }
      assert refs[..ind + 1] == refs[..ind] + [refs[ind]];
    }
    assert before[..refs.Length] == before && refs[..refs.Length] == refs[..];
  }

  method ScaleUp(objects: ObjectsFromBackup, cluster: Cluster, env: Env) returns (panicked: bool)
    modifies cluster
    ensures var up := Up(objects.controllerReferences[..], old(cluster.controllers), env);
            panicked == up.None? && (!panicked ==> cluster.controllers == up.value)
  {
    var refs := objects.controllerReferences;
    ghost var all, live := refs[..], cluster.controllers;
    for ind := 0 to refs.Length
      invariant Up(all[..ind], live, env) == Some(cluster.controllers)
    {
      assert all[..ind + 1][..ind] == all[..ind];
      var key := refs[ind].key;
      if !Reachable(key, cluster.controllers, env) {
        continue;
      }
      if cluster.controllers[key].NoSpec? {
        PanicPersists(all, ind + 1, live, env);
        return true;
      }
      if key !in env.unwritable {
        cluster.controllers := cluster.controllers[key := Spec(Int64(refs[ind].replicas))];
      }
    }
    assert all[..refs.Length] == all;
    return false;
  }

  lemma PanicPersists(refs: seq<ControllerRef>, k: nat, live: Live, env: Env)
    requires k <= |refs| && Up(refs[..k], live, env).None?
    ensures Up(refs, live, env).None?
    decreases |refs|
  {
    if k < |refs| {
      assert refs[..|refs| - 1][..k] == refs[..k];
      PanicPersists(refs[..|refs| - 1], k, live, env);
    } else {
      assert refs[..k] == refs;
    }
  }

  /** Scale-up panics exactly when it can read a controller that has no spec. */
  lemma {:induction false} UpPanicsIff(refs: seq<ControllerRef>, live: Live, env: Env)
    ensures Up(refs, live, env).None? <==>
            exists j | 0 <= j < |refs| :: Reachable(refs[j].key, live, env) && live[refs[j].key].NoSpec?
    ensures Up(refs, live, env).Some? ==>
              forall key :: (key in Up(refs, live, env).value <==> key in live)
                && (key in live ==> (Up(refs, live, env).value[key].NoSpec? <==> live[key].NoSpec?))
  {
    if refs != [] {
      var n := |refs| - 1;
      UpPanicsIff(refs[..n], live, env);
      assert forall j | 0 <= j < n :: refs[..n][j] == refs[j];
      if Up(refs[..n], live, env).None? {
        var j :| 0 <= j < n && Reachable(refs[..n][j].key, live, env) && live[refs[..n][j].key].NoSpec?;
        assert Reachable(refs[j].key, live, env);
      }
    }
  }

  // ---- from scale-down to the end of OnRestoreChange ----

  /** A restore phase or the prune: it may do anything to the controllers, may fail, and a failed prune
      ends the restore even when errors are ignored. */
  datatype Phase = Phase(effect: Live -> Live, fails: bool, isPrune: bool)

  /** The controllers when OnRestoreChange returns; None if a scale-up panics. */
  function Flow(refs: seq<ControllerRef>, live: Live, phases: seq<Phase>, ignoreErrors: bool, env: Env): Option<Live>
    decreases |phases|
  {
    if phases == [] then Up(refs, live, env)
    else
      var live' := phases[0].effect(live);
      if !phases[0].fails then Flow(refs, live', phases[1..], ignoreErrors, env)
      else
        match Up(refs, live', env)
        case None => None
        case Some(live'') =>
          if phases[0].isPrune || !ignoreErrors then Some(live'')
          else Flow(refs, live'', phases[1..], ignoreErrors, env)
  }

  /** The control flow, handing the struct by value to each scaling step. */
  method RestoreBetweenScaling(objects: ObjectsFromBackup, cluster: Cluster, phases: seq<Phase>, ignoreErrors: bool,
                               down: Env, up: Env)
    returns (panicked: bool)
    modifies objects.controllerReferences, cluster
    ensures var s := Down(old(objects.controllerReferences[..]), old(cluster.controllers), down);
            var final := Flow(s.refs, s.live, phases, ignoreErrors, up);
            panicked == final.None? && (!panicked ==> cluster.controllers == final.value)
  {
    ScaleDown(objects, cluster, down);
    ghost var s := Down(old(objects.controllerReferences[..]), old(cluster.controllers), down);
    for i := 0 to |phases|
      invariant objects.controllerReferences[..] == s.refs
      invariant Flow(s.refs, s.live, phases, ignoreErrors, up) ==
                Flow(s.refs, cluster.controllers, phases[i..], ignoreErrors, up)
    {
      assert phases[i..][0] == phases[i] && phases[i..][1..] == phases[i + 1..];
      cluster.controllers := phases[i].effect(cluster.controllers);
      if phases[i].fails {
        panicked := ScaleUp(objects, cluster, up);
        if panicked || phases[i].isPrune || !ignoreErrors {
          return;
        }
      }
    }
    assert phases[|phases|..] == [];
    panicked := ScaleUp(objects, cluster, up);
  }

  /** How often the references name a controller, and the count in the last of them. */
  function Mentions(refs: seq<ControllerRef>, key: RefKey): nat {
    if refs == [] then 0
    else Mentions(refs[..|refs| - 1], key) + if refs[|refs| - 1].key == key then 1 else 0
  }

  function LastReplicas(refs: seq<ControllerRef>, key: RefKey): int
    requires Mentions(refs, key) > 0
  {
    var n := |refs| - 1;
    if refs[n].key == key then refs[n].replicas else LastReplicas(refs[..n], key)
  }

  predicate HasSpec(live: Live, key: RefKey) {
    key in live && live[key].Spec?
  }

  predicate ScaledDown(refs: seq<ControllerRef>, live: Live, env: Env, key: RefKey) {
    Mentions(refs, key) > 0 && SavedCount(key, live, env).Some? && key !in env.unwritable
  }

  /** Scale-down writes zero wherever it could save the count, however often a controller is named. */
  lemma {:induction false} DownLive(refs: seq<ControllerRef>, live: Live, env: Env, key: RefKey)
    ensures var s := Down(refs, live, env);
            && (key in s.live <==> key in live)
            && (key in live ==> s.live[key] == if ScaledDown(refs, live, env, key) then Spec(Int64(0)) else live[key])
    decreases |refs|
  {
    if refs != [] {
      DownLive(refs[..|refs| - 1], live, env, key);
    }
  }

  /** The count a controller gets back: the saved one; zero if it is named again after it was scaled down; the
      archived one if none could be saved. */
  function CountGivenBack(refs: seq<ControllerRef>, live: Live, env: Env, key: RefKey): int
    requires Mentions(refs, key) > 0
  {
    match SavedCount(key, live, env)
    case None => LastReplicas(refs, key)
    case Some(count) => if Mentions(refs, key) > 1 && key !in env.unwritable then 0 else count
  }

  /** Scale-down leaves that count in the last reference to the controller. */
  lemma {:induction false} DownRefs(refs: seq<ControllerRef>, live: Live, env: Env, key: RefKey)
    ensures Mentions(Down(refs, live, env).refs, key) == Mentions(refs, key)
    ensures Mentions(refs, key) > 0 ==>
              LastReplicas(Down(refs, live, env).refs, key) == CountGivenBack(refs, live, env, key)
    decreases |refs|
  {
    if refs != [] {
      var n := |refs| - 1;
      var init, s := Down(refs[..n], live, env), Down(refs, live, env);
      DownRefs(refs[..n], live, env, key);
      DownLive(refs[..n], live, env, key);
      assert s.refs[..n] == init.refs && s.refs[n].key == refs[n].key;
    }
  }

  /** Scale-up gives each controller it can read and write the last count named for it, and leaves the others alone. */
  lemma {:induction false} UpAt(refs: seq<ControllerRef>, live: Live, env: Env, key: RefKey)
    requires HasSpec(live, key) && Up(refs, live, env).Some?
    ensures var l := Up(refs, live, env).value;
            key in l &&
            l[key] == if Mentions(refs, key) == 0 || key in env.unreadable || key in env.unwritable then live[key]
                      else Spec(Int64(LastReplicas(refs, key)))
    decreases |refs|
  {
    if refs != [] {
      UpAt(refs[..|refs| - 1], live, env, key);
    }
  }

  /** Each phase leaves the controller in place with a spec; it may otherwise do what it likes to it. */
  ghost predicate Respects(phases: seq<Phase>, key: RefKey) {
    forall k, live | 0 <= k < |phases| && HasSpec(live, key) :: HasSpec(phases[k].effect(live), key)
  }

  predicate Writable(env: Env, key: RefKey) {
    key !in env.unreadable && key !in env.unwritable
  }

  /** Every exit from OnRestoreChange, through whatever failures, ends with a scale-up from the saved counts. */
  lemma {:induction false} FlowEndsScaledUp(refs: seq<ControllerRef>, live: Live, phases: seq<Phase>,
                                            ignoreErrors: bool, env: Env, key: RefKey)
    requires Mentions(refs, key) > 0 && HasSpec(live, key) && Respects(phases, key) && Writable(env, key)
    requires Flow(refs, live, phases, ignoreErrors, env).Some?
    ensures var final := Flow(refs, live, phases, ignoreErrors, env).value;
            key in final && final[key] == Spec(Int64(LastReplicas(refs, key)))
    decreases |phases|
  {
    if phases == [] {
      UpAt(refs, live, env, key);
    } else {
      var live' := phases[0].effect(live);
      assert HasSpec(live', key);
      assert forall k | 0 <= k < |phases[1..]| :: phases[1..][k] == phases[k + 1];
      if !phases[0].fails {
        FlowEndsScaledUp(refs, live', phases[1..], ignoreErrors, env, key);
      } else {
        UpAt(refs, live', env, key);
        var live'' := Up(refs, live', env).value;
        if !phases[0].isPrune && ignoreErrors {
          FlowEndsScaledUp(refs, live'', phases[1..], ignoreErrors, env, key);
        }
      }
    }
  }

  /** A restore that leaves every named controller its spec does not panic. */
  lemma {:induction false} FlowReturns(refs: seq<ControllerRef>, live: Live, phases: seq<Phase>, ignoreErrors: bool,
                                       env: Env)
    requires forall j | 0 <= j < |refs| :: HasSpec(live, refs[j].key) && Respects(phases, refs[j].key)
    ensures Flow(refs, live, phases, ignoreErrors, env).Some?
    decreases |phases|
  {
    hide Up, Respects;
    if phases == [] {
      UpPanicsIff(refs, live, env);
    } else {
      var live' := phases[0].effect(live);
      forall j | 0 <= j < |refs| ensures HasSpec(live', refs[j].key) && Respects(phases[1..], refs[j].key) {
        RespectsStep(phases, live, refs[j].key);
      }
      UpPanicsIff(refs, live', env);
      if !phases[0].fails {
        FlowReturns(refs, live', phases[1..], ignoreErrors, env);
      } else {
        FlowReturns(refs, Up(refs, live', env).value, phases[1..], ignoreErrors, env);
      }
    }
  }

  lemma RespectsStep(phases: seq<Phase>, live: Live, key: RefKey)
    requires Respects(phases, key) && phases != [] && HasSpec(live, key)
    ensures HasSpec(phases[0].effect(live), key) && Respects(phases[1..], key)
  {
    assert forall k | 0 <= k < |phases[1..]| :: phases[1..][k] == phases[k + 1];
  }

  /** The replica count of a live controller. */
  function CountOf(c: Controller): int {
    if c.Spec? && !c.replicas.Missing? then c.replicas.n else 0
  }

  /** The count every restore ends with, for any list of references. */
  lemma RestoreGivesBack(refs: seq<ControllerRef>, live: Live, phases: seq<Phase>, ignoreErrors: bool, down: Env,
                         up: Env, key: RefKey)
    requires Mentions(refs, key) > 0 && HasSpec(live, key) && Respects(phases, key) && Writable(up, key)
    requires Flow(Down(refs, live, down).refs, Down(refs, live, down).live, phases, ignoreErrors, up).Some?
    ensures var s := Down(refs, live, down);
            var final := Flow(s.refs, s.live, phases, ignoreErrors, up).value;
            key in final && final[key] == Spec(Int64(CountGivenBack(refs, live, down, key)))
  {
    var s := Down(refs, live, down);
    DownLive(refs, live, down, key);
    DownRefs(refs, live, down, key);
    FlowEndsScaledUp(s.refs, s.live, phases, ignoreErrors, up, key);
  }

  /** Exactly when a restore leaves a controller at its count: named once, when scale-down saved it and it fits an
      int32; named again after it was scaled down, when it was zero anyway; not saved, when the archived ResourceSet
      happens to name that count last. */
  lemma ScalingIsIdentityIff(refs: seq<ControllerRef>, live: Live, phases: seq<Phase>, ignoreErrors: bool, down: Env,
                             up: Env, key: RefKey)
    requires Mentions(refs, key) > 0 && HasSpec(live, key) && Respects(phases, key) && Writable(up, key)
    requires Flow(Down(refs, live, down).refs, Down(refs, live, down).live, phases, ignoreErrors, up).Some?
    ensures var s := Down(refs, live, down);
            var final := Flow(s.refs, s.live, phases, ignoreErrors, up).value;
            var original := CountOf(live[key]);
            key in final &&
            (CountOf(final[key]) == original <==>
               if key in down.unreadable || live[key].replicas.Missing? then LastReplicas(refs, key) == original
               else if Mentions(refs, key) > 1 && key !in down.unwritable then original == 0
               else live[key].replicas.Int32? || -TWO_TO_THE_31 <= original < TWO_TO_THE_31)
  {
    RestoreGivesBack(refs, live, phases, ignoreErrors, down, up, key);
  }

  // ---- between scale-down and scale-up ----

  /** The controllers at the start of phase k; None if OnRestoreChange has returned or panicked before. */
  function AtPhase(refs: seq<ControllerRef>, live: Live, phases: seq<Phase>, ignoreErrors: bool, env: Env, k: nat)
    : Option<Live>
    requires k <= |phases|
    decreases k
  {
    if k == 0 then Some(live)
    else
      var live' := phases[0].effect(live);
      if !phases[0].fails then AtPhase(refs, live', phases[1..], ignoreErrors, env, k - 1)
      else
        match Up(refs, live', env)
        case None => None
        case Some(live'') =>
          if phases[0].isPrune || !ignoreErrors then None
          else AtPhase(refs, live'', phases[1..], ignoreErrors, env, k - 1)
  }

  /** That is where the restore stands: it goes on from there to the outcome of the whole. */
  lemma {:induction false} FlowGoesOn(refs: seq<ControllerRef>, live: Live, phases: seq<Phase>, ignoreErrors: bool,
                                      env: Env, k: nat)
    requires k <= |phases| && AtPhase(refs, live, phases, ignoreErrors, env, k).Some?
    ensures Flow(refs, live, phases, ignoreErrors, env) ==
            Flow(refs, AtPhase(refs, live, phases, ignoreErrors, env, k).value, phases[k..], ignoreErrors, env)
    decreases k
  {
    if k == 0 {
      assert phases[0..] == phases;
    } else {
      assert phases[1..][k - 1..] == phases[k..];
      var live' := phases[0].effect(live);
      if phases[0].fails {
        FlowGoesOn(refs, Up(refs, live', env).value, phases[1..], ignoreErrors, env, k - 1);
      } else {
        FlowGoesOn(refs, live', phases[1..], ignoreErrors, env, k - 1);
      }
    }
  }

  /** The phases do not restore, prune or otherwise touch the controller. */
  ghost predicate LeaveAlone(phases: seq<Phase>, key: RefKey) {
    forall k, l | 0 <= k < |phases| && key in l :: key in phases[k].effect(l) && phases[k].effect(l)[key] == l[key]
  }

  predicate NoFailureBefore(phases: seq<Phase>, k: nat)
    requires k <= |phases|
  {
    forall j | 0 <= j < k :: !phases[j].fails
  }

  lemma {:induction false} CountAtPhase(refs: seq<ControllerRef>, live: Live, phases: seq<Phase>, ignoreErrors: bool,
                                        env: Env, k: nat, key: RefKey)
    requires k <= |phases| && AtPhase(refs, live, phases, ignoreErrors, env, k).Some?
    requires Mentions(refs, key) > 0 && HasSpec(live, key) && LeaveAlone(phases, key) && Writable(env, key)
    ensures var l := AtPhase(refs, live, phases, ignoreErrors, env, k).value;
            key in l && l[key] == if NoFailureBefore(phases, k) then live[key] else Spec(Int64(LastReplicas(refs, key)))
    ensures !ignoreErrors ==> NoFailureBefore(phases, k)
    decreases k
  {
    hide Up, Mentions, LastReplicas, LeaveAlone, NoFailureBefore, AtPhase;
    NoFailureStep(phases, k);
    AtPhaseStep(refs, live, phases, ignoreErrors, env, k);
    if k > 0 {
      var rest, live' := phases[1..], phases[0].effect(live);
      LeaveAloneStep(phases, live, key);
      if phases[0].fails {
        UpAt(refs, live', env, key);
        CountAtPhase(refs, Up(refs, live', env).value, rest, ignoreErrors, env, k - 1, key);
      } else {
        CountAtPhase(refs, live', rest, ignoreErrors, env, k - 1, key);
      }
    }
  }

  lemma AtPhaseStep(refs: seq<ControllerRef>, live: Live, phases: seq<Phase>, ignoreErrors: bool, env: Env, k: nat)
    requires k <= |phases| && AtPhase(refs, live, phases, ignoreErrors, env, k).Some?
    ensures var l := AtPhase(refs, live, phases, ignoreErrors, env, k).value;
            if k == 0 then l == live
            else if !phases[0].fails then
              AtPhase(refs, phases[0].effect(live), phases[1..], ignoreErrors, env, k - 1) == Some(l)
            else
              var up := Up(refs, phases[0].effect(live), env);
              up.Some? && ignoreErrors && AtPhase(refs, up.value, phases[1..], ignoreErrors, env, k - 1) == Some(l)
  {
    hide Up;
  }

  lemma LeaveAloneStep(phases: seq<Phase>, live: Live, key: RefKey)
    requires LeaveAlone(phases, key) && phases != [] && key in live
    ensures LeaveAlone(phases[1..], key)
    ensures key in phases[0].effect(live) && phases[0].effect(live)[key] == live[key]
  {
    assert forall j | 0 <= j < |phases[1..]| :: phases[1..][j] == phases[j + 1];
  }

  lemma NoFailureStep(phases: seq<Phase>, k: nat)
    requires k <= |phases|
    ensures if k == 0 then NoFailureBefore(phases, k)
            else NoFailureBefore(phases, k) <==> !phases[0].fails && NoFailureBefore(phases[1..], k - 1)
  {
    if k > 0 {
      var rest := phases[1..];
      assert forall j | 0 <= j < |rest| :: rest[j] == phases[j + 1];
      assert forall j | 0 < j < k :: phases[j] == rest[j - 1];
    }
  }

  /** Whether a controller that was scaled down is still at zero when phase k begins: exactly if no earlier phase has
      failed, since a failure scales it up even where errors are ignored and the restore goes on; or if zero is what
      it gets back. Where errors are not ignored it is at zero in every phase. */
  lemma AtZeroIff(refs: seq<ControllerRef>, live: Live, phases: seq<Phase>, ignoreErrors: bool, down: Env, up: Env,
                  k: nat, key: RefKey)
    requires k <= |phases| && LeaveAlone(phases, key) && Writable(up, key) && ScaledDown(refs, live, down, key)
    ensures var s := Down(refs, live, down);
            var reached := AtPhase(s.refs, s.live, phases, ignoreErrors, up, k);
            reached.Some? ==>
              && key in reached.value
              && (reached.value[key] == Spec(Int64(0)) <==>
                    NoFailureBefore(phases, k) || CountGivenBack(refs, live, down, key) == 0)
              && (!ignoreErrors ==> reached.value[key] == Spec(Int64(0)))
  {
    hide AtPhase, LeaveAlone, NoFailureBefore, CountGivenBack;
    var s := Down(refs, live, down);
    DownLive(refs, live, down, key);
    DownRefs(refs, live, down, key);
    if AtPhase(s.refs, s.live, phases, ignoreErrors, up, k).Some? {
      CountAtPhase(s.refs, s.live, phases, ignoreErrors, up, k, key);
    }
  }

  // ---- when scale-up cannot reach a controller ----

  /** What such a controller ends at, if the phases leave it alone: zero if it was scaled down, else what it was. */
  lemma {:induction false} OutOfReachStays(refs: seq<ControllerRef>, live: Live, phases: seq<Phase>, ignoreErrors: bool,
                                           env: Env, key: RefKey)
    requires HasSpec(live, key) && LeaveAlone(phases, key) && !Writable(env, key)
    ensures Flow(refs, live, phases, ignoreErrors, env).Some? ==>
              && key in Flow(refs, live, phases, ignoreErrors, env).value
              && Flow(refs, live, phases, ignoreErrors, env).value[key] == live[key]
    decreases |phases|
  {
    hide Up, LeaveAlone;
    if phases == [] {
      if Up(refs, live, env).Some? {
        UpAt(refs, live, env, key);
      }
    } else {
      LeaveAloneStep(phases, live, key);
      var live' := phases[0].effect(live);
      if !phases[0].fails {
        OutOfReachStays(refs, live', phases[1..], ignoreErrors, env, key);
      } else if Up(refs, live', env).Some? {
        UpAt(refs, live', env, key);
        OutOfReachStays(refs, Up(refs, live', env).value, phases[1..], ignoreErrors, env, key);
      }
    }
  }

  /** A controller that scale-up can neither read nor write keeps its count exactly if it was never scaled down, or
      was at zero anyway. */
  lemma OutOfReachIdentityIff(refs: seq<ControllerRef>, live: Live, phases: seq<Phase>, ignoreErrors: bool, down: Env,
                              up: Env, key: RefKey)
    requires HasSpec(live, key) && LeaveAlone(phases, key) && !Writable(up, key)
    ensures var s := Down(refs, live, down);
            var final := Flow(s.refs, s.live, phases, ignoreErrors, up);
            final.Some? ==>
              && key in final.value
              && final.value[key] == (if ScaledDown(refs, live, down, key) then Spec(Int64(0)) else live[key])
              && (CountOf(final.value[key]) == CountOf(live[key]) <==>
                    !ScaledDown(refs, live, down, key) || CountOf(live[key]) == 0)
  {
    hide LeaveAlone, Flow;
    var s := Down(refs, live, down);
    DownLive(refs, live, down, key);
    OutOfReachStays(s.refs, s.live, phases, ignoreErrors, up, key);
  }

  // ---- two ways to lose a controller ----

  /** A controller that scale-down could not read, but scale-up can, ends at the archived count, which is zero in a
      ResourceSet that names none: it is shut down by the restore. */
  lemma UnreadableOnceIsShutDown(refs: seq<ControllerRef>, live: Live, phases: seq<Phase>, ignoreErrors: bool,
                                 down: Env, up: Env, key: RefKey)
    requires Mentions(refs, key) > 0 && HasSpec(live, key) && Respects(phases, key) && Writable(up, key)
    requires key in down.unreadable && LastReplicas(refs, key) == 0
    requires Flow(Down(refs, live, down).refs, Down(refs, live, down).live, phases, ignoreErrors, up).Some?
    ensures var s := Down(refs, live, down);
            var final := Flow(s.refs, s.live, phases, ignoreErrors, up).value;
            key in final && final[key] == Spec(Int64(0))
  {
    RestoreGivesBack(refs, live, phases, ignoreErrors, down, up, key);
  }

  /** A controller that is named twice and was scaled down ends at zero. */
  lemma NamedTwiceIsShutDown(refs: seq<ControllerRef>, live: Live, phases: seq<Phase>, ignoreErrors: bool, down: Env,
                             up: Env, key: RefKey)
    requires Mentions(refs, key) > 1 && HasSpec(live, key) && Respects(phases, key) && Writable(up, key)
    requires ScaledDown(refs, live, down, key)
    requires Flow(Down(refs, live, down).refs, Down(refs, live, down).live, phases, ignoreErrors, up).Some?
    ensures var s := Down(refs, live, down);
            var final := Flow(s.refs, s.live, phases, ignoreErrors, up).value;
            key in final && final[key] == Spec(Int64(0))
  {
    RestoreGivesBack(refs, live, phases, ignoreErrors, down, up, key);
  }
}
