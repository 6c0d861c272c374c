/** The worklist loop as a function of its adjacency lists, counters and queue, and why it ends on any input:
    nothing is assumed of the three, and restoreResource may answer as it likes. */
module WorklistMeasure {
  import opened ArchivePath

  type Lists = map<string, seq<ObjInfo>>

  datatype Work = Work(queue: seq<ObjInfo>, created: set<string>, counters: map<string, nat>)

  /** A Go map yields 0 for a missing key. */
  function Counter(counters: map<string, nat>, path: string): nat {
    if path in counters then counters[path] else 0
  }

  /** The loop over the dependents of an object just restored. */
  function Release(w: Work, dependents: seq<ObjInfo>): Work {
    if dependents == [] then w
    else
      var n := |dependents| - 1;
      var w' := Release(w, dependents[..n]);
      var path, left := dependents[n].configPath, Counter(w'.counters, dependents[n].configPath);
      var counters := if left > 0 then w'.counters[path := left - 1] else w'.counters;
      w'.(counters := counters, queue := if left <= 1 then w'.queue + [dependents[n]] else w'.queue)
  }

  lemma ReleaseNothing(w: Work)
    ensures Release(w, []) == w
  {
  }

  lemma ReleaseSnoc(w: Work, dependents: seq<ObjInfo>, k: nat)
    requires k < |dependents|
    ensures var w', path := Release(w, dependents[..k]), dependents[k].configPath;
            var left := Counter(w'.counters, path);
            Release(w, dependents[..k + 1]) ==
            w'.(counters := if left > 0 then w'.counters[path := left - 1] else w'.counters,
                queue := if left <= 1 then w'.queue + [dependents[k]] else w'.queue)
  {
    assert dependents[..k + 1][..k] == dependents[..k];
  }

  function DependentsOf(lists: Lists, path: string): seq<ObjInfo> {
    if path in lists then lists[path] else []
  }

  /** One turn of the worklist loop. */
  function Turn(lists: Lists, w: Work, restored: bool): Work
    requires w.queue != []
  {
    var curr, rest := w.queue[0], w.(queue := w.queue[1..]);
    if curr.configPath in w.created || !restored then rest
    else
      var told := Release(rest, DependentsOf(lists, curr.configPath));
      told.(created := told.created + {curr.configPath})
  }

  function Run(lists: Lists, w: Work, outcomes: seq<bool>): Work
    decreases |outcomes|
  {
    if outcomes == [] || w.queue == [] then w else Run(lists, Turn(lists, w, outcomes[0]), outcomes[1..])
  }

  /** How many entries all lists hold together. */
  ghost function Total(lists: Lists): nat
    decreases |lists|
  {
    if lists == map[] then 0
    else
      var p :| p in lists;
      |lists[p]| + Total(lists - {p})
  }

  lemma {:induction false} TotalWithout(lists: Lists, p: string)
    requires p in lists
    ensures Total(lists) == |lists[p]| + Total(lists - {p})
    decreases |lists|
  {
    var q :| q in lists && Total(lists) == |lists[q]| + Total(lists - {q});
    if q != p {
      TotalWithout(lists - {q}, p);
      TotalWithout(lists - {p}, q);
      assert lists - {q} - {p} == lists - {p} - {q};
    }
  }

  /** Queue length plus the dependents still to be told. */
  ghost function Measure(lists: Lists, w: Work): nat {
    |w.queue| + Total(lists - w.created)
  }

  lemma {:induction false} ReleaseGrows(w: Work, dependents: seq<ObjInfo>)
    ensures Release(w, dependents).created == w.created
    ensures |Release(w, dependents).queue| <= |w.queue| + |dependents|
  {
    if dependents != [] {
      ReleaseGrows(w, dependents[..|dependents| - 1]);
    }
  }

  lemma TurnDecreases(lists: Lists, w: Work, restored: bool)
    requires w.queue != []
    ensures Measure(lists, Turn(lists, w, restored)) < Measure(lists, w)
  {
    var curr := w.queue[0];
    var path := curr.configPath;
    if path !in w.created && restored {
      ReleaseGrows(w.(queue := w.queue[1..]), DependentsOf(lists, path));
      assert lists - (w.created + {path}) == lists - w.created - {path};
      if path in lists {
        TotalWithout(lists - w.created, path);
      } else {
        assert lists - w.created - {path} == lists - w.created;
      }
    }
  }

  /** The loop has run dry after as many turns as the measure says, whatever the outcomes. */
  lemma {:induction false} WorklistEnds(lists: Lists, w: Work, outcomes: seq<bool>)
    requires |outcomes| >= Measure(lists, w)
    ensures Run(lists, w, outcomes).queue == []
    decreases |outcomes|
  {
    if outcomes != [] && w.queue != [] {
      TurnDecreases(lists, w, outcomes[0]);
      WorklistEnds(lists, Turn(lists, w, outcomes[0]), outcomes[1..]);
    }
  }

  /** One turn more. */
  lemma {:induction false} RunSnoc(lists: Lists, w: Work, outcomes: seq<bool>, restored: bool)
    requires Run(lists, w, outcomes).queue != []
    ensures Run(lists, w, outcomes + [restored]) == Turn(lists, Run(lists, w, outcomes), restored)
    decreases |outcomes|
  {
    hide Turn;
    if outcomes == [] {
      assert [restored][1..] == [];
    } else if w.queue != [] {
      assert (outcomes + [restored])[1..] == outcomes[1..] + [restored];
      RunSnoc(lists, Turn(lists, w, outcomes[0]), outcomes[1..], restored);
    }
  }
}
