/** Keeping the newest N backup files on the mount path. */
module Retention {
  import opened BackupFilename

  /** A directory: file name to modification time. */
  type Files = map<string, int>

  datatype BackupInfo = BackupInfo(filename: string, creationTimestamp: int)

  datatype Outcome = Done | RemoveFailed(filename: string) | Panicked

  datatype BackupType = OneTime | Recurring

  const DEFAULT_RETENTION_COUNT_RECURRING := 10
  const DEFAULT_RETENTION_COUNT_ONE_TIME := 1

  /** The part of a Backup that decides retention. */
  class Backup {
    var backupType: BackupType
    var validSchedule: bool
    var retentionCount: int

    constructor (backupType: BackupType, validSchedule: bool, retentionCount: int)
      ensures this.backupType == backupType && this.validSchedule == validSchedule
              && this.retentionCount == retentionCount
    {
      this.backupType, this.validSchedule, this.retentionCount := backupType, validSchedule, retentionCount;
    }

    /** validateBackupSpec. The CRD schema admits an absent count, read as 0, or one of at least 1. */
    method ValidateBackupSpec() returns (ok: bool)
      requires retentionCount >= 0
      modifies this`retentionCount
      ensures ok <==> backupType == Recurring ==> validSchedule
      ensures ok ==> retentionCount >= 1
      ensures retentionCount == if !ok then old(retentionCount)
                                else if backupType == OneTime then DEFAULT_RETENTION_COUNT_ONE_TIME
                                else if old(retentionCount) == 0 then DEFAULT_RETENTION_COUNT_RECURRING
                                else old(retentionCount)
    {
      if backupType == Recurring {
        if !validSchedule {
          return false;
        }
        if retentionCount == 0 {
          retentionCount := DEFAULT_RETENTION_COUNT_RECURRING;
        }
      } else {
        retentionCount := DEFAULT_RETENTION_COUNT_ONE_TIME;
      }
      return true;
    }
  }

  predicate NewestFirst(infos: seq<BackupInfo>) {
    forall i, j | 0 <= i < j < |infos| :: infos[i].creationTimestamp >= infos[j].creationTimestamp
  }

  /** The comparator handed to sort.Slice. It holds of equal times in both directions, so the library's
      own contract does not cover it; what is used of the sort is this method's contract. */
  predicate Less(a: BackupInfo, b: BackupInfo) {
    !(a.creationTimestamp < b.creationTimestamp)
  }

  /** An in-place insertion sort with that comparator. */
  method SortNewestFirst(a: array<BackupInfo>)
    modifies a
    ensures NewestFirst(a[..])
    ensures multiset(a[..]) == multiset(old(a[..]))
  {
    for i := 0 to a.Length
      invariant NewestFirst(a[..i])
      invariant multiset(a[..]) == multiset(old(a[..]))
    {
      Insert(a, i);
    }
    assert a[..a.Length] == a[..];
  }

  /** Moves element i down to its place among its predecessors. */
  method Insert(a: array<BackupInfo>, i: nat)
    requires i < a.Length && NewestFirst(a[..i])
    modifies a
    ensures NewestFirst(a[..i + 1])
    ensures multiset(a[..]) == multiset(old(a[..]))
  {
    var j := i;
    while j > 0 && Less(a[j], a[j - 1])
      invariant 0 <= j <= i
      invariant forall p, q | 0 <= p < q <= i && q != j :: a[p].creationTimestamp >= a[q].creationTimestamp
      invariant multiset(a[..]) == multiset(old(a[..]))
    {
      a[j], a[j - 1] := a[j - 1], a[j];
      j := j - 1;
    }
  }

  function Matching(files: Files, pattern: string): set<string> {
    set f | f in files && Glob(pattern, f)
  }

  /** `kept` are N of the files in `all`, and none of the others is newer than any of them. */
  ghost predicate Newest(kept: set<string>, all: Files, n: nat) {
    && kept <= all.Keys
    && |kept| == (if |all| < n then |all| else n)
    && forall k, d | k in kept && d in all && d !in kept :: all[d] <= all[k]
  }

  function Restrict(files: Files, names: set<string>): Files {
    map f | f in files && f in names :: files[f]
  }

  predicate Describes(infos: seq<BackupInfo>, files: Files, names: set<string>) {
    && (forall i | 0 <= i < |infos| :: infos[i].filename in names && infos[i].filename in files
                                       && infos[i].creationTimestamp == files[infos[i].filename])
    && (forall i, j | 0 <= i < j < |infos| :: infos[i].filename != infos[j].filename)
    && (forall f | f in names :: exists i :: 0 <= i < |infos| && infos[i].filename == f)
  }

  lemma DescribesPermuted(infos: seq<BackupInfo>, sorted: seq<BackupInfo>, files: Files, names: set<string>)
    requires Describes(infos, files, names) && multiset(sorted) == multiset(infos)
    ensures Describes(sorted, files, names) && |sorted| == |infos|
  {
    assert |multiset(sorted)| == |sorted| && |multiset(infos)| == |infos|;
    forall x ensures x in sorted <==> x in infos {
      assert x in sorted <==> x in multiset(sorted);
      assert x in infos <==> x in multiset(infos);
    }
    forall i | 0 <= i < |sorted|
      ensures sorted[i].filename in names && sorted[i].filename in files
      ensures sorted[i].creationTimestamp == files[sorted[i].filename]
    {
      assert sorted[i] in infos;
    }
    forall i, j | 0 <= i < j < |sorted| ensures sorted[i].filename != sorted[j].filename {
      if sorted[i].filename == sorted[j].filename {
        assert sorted[i] == sorted[j];
        TwiceCounted(sorted, i, j);
        OnceCounted(infos, sorted[i]);
      }
    }
    forall f | f in names ensures exists i :: 0 <= i < |sorted| && sorted[i].filename == f {
      var i :| 0 <= i < |infos| && infos[i].filename == f;
      assert infos[i] in sorted;
    }
  }

  lemma TwiceCounted<T>(s: seq<T>, i: nat, j: nat)
    requires i < j < |s| && s[i] == s[j]
    ensures multiset(s)[s[i]] >= 2
  {
    assert s == s[..i] + [s[i]] + s[i + 1..j] + [s[j]] + s[j + 1..];
  }

  lemma {:induction false} OnceCounted(infos: seq<BackupInfo>, x: BackupInfo)
    requires forall i, j | 0 <= i < j < |infos| :: infos[i].filename != infos[j].filename
    ensures multiset(infos)[x] <= 1
  {
    if infos != [] {
      var n := |infos| - 1;
      assert infos == infos[..n] + [infos[n]];
      OnceCounted(infos[..n], x);
      if x == infos[n] {
        assert x !in infos[..n];
      }
    }
  }

  /** The names of the first n infos. */
  function Head(infos: seq<BackupInfo>, n: nat): set<string>
    requires n <= |infos|
  {
    set i | 0 <= i < n :: infos[i].filename
  }

  lemma {:induction false} HeadSize(infos: seq<BackupInfo>, n: nat)
    requires n <= |infos|
    requires forall i, j | 0 <= i < j < |infos| :: infos[i].filename != infos[j].filename
    ensures |Head(infos, n)| == n
  {
    if n > 0 {
      HeadSize(infos, n - 1);
      assert Head(infos, n) == Head(infos, n - 1) + {infos[n - 1].filename};
    }
  }

  lemma HeadIsNewest(infos: seq<BackupInfo>, files: Files, names: set<string>, n: nat)
    requires Describes(infos, files, names) && NewestFirst(infos) && n <= |infos| && names <= files.Keys
    ensures Newest(Head(infos, n), Restrict(files, names), n)
  {
    var all := Restrict(files, names);
    assert all.Keys == names;
    HeadSize(infos, n);
    HeadSize(infos, |infos|);
    assert Head(infos, |infos|) == names by {
      forall f | f in names ensures f in Head(infos, |infos|) {
        var i :| 0 <= i < |infos| && infos[i].filename == f;
      }
    }
    forall k, d | k in Head(infos, n) && d in all && d !in Head(infos, n) ensures all[d] <= all[k] {
      var i :| 0 <= i < n && infos[i].filename == k;
      var j :| 0 <= j < |infos| && infos[j].filename == d;
      assert j >= n;
    }
  }

  class MountPath {
    var files: Files

    /** The info of every matching file that can be stat'ed; the order of the matches does not matter. */
    method StatMatches(matches: set<string>, unreadable: set<string>) returns (infos: seq<BackupInfo>)
      requires matches <= files.Keys
      ensures Describes(infos, files, matches - unreadable)
    {
      infos := [];
      var remaining := matches;
      while remaining != {}
        invariant remaining <= matches
        invariant Describes(infos, files, matches - remaining - unreadable)
        decreases remaining
      {
        var file :| file in remaining;
        ghost var names := matches - remaining - unreadable;
        remaining := remaining - {file};
        if file !in unreadable {
          ghost var before := infos;
          infos := infos + [BackupInfo(file, files[file])];
          assert matches - remaining - unreadable == names + {file};
          DescribesOneMore(before, files, names, file);
        } else {
          assert matches - remaining - unreadable == names;
        }
      }
      assert matches - {} - unreadable == matches - unreadable;
    }

    /** deleteBackupsFromMountPath, with the files whose stat or removal fails. */
    method DeleteBackups(pattern: string, retentionCount: nat, unreadable: set<string>, unremovable: set<string>)
      returns (outcome: Outcome, ghost kept: set<string>)
      modifies this
      ensures var matches := Matching(old(files), pattern);
              var readable := matches - unreadable;
              if |matches| <= retentionCount then outcome == Done && files == old(files)
              else if |readable| < retentionCount then outcome == Panicked && files == old(files)
              else
                && Newest(kept, Restrict(old(files), readable), retentionCount) && |kept| == retentionCount
                && Removed(old(files), files, readable - kept, unremovable, outcome)
    {
      hide Glob, Describes, NewestFirst, Newest, Head;
      kept := {};
      var matches := Matching(files, pattern);
      if |matches| <= retentionCount {
        return Done, {};
      }
      var infos := StatMatches(matches, unreadable);
      DescribesSize(infos, files, matches - unreadable);
      var backupFiles := new BackupInfo[|infos|](i requires 0 <= i < |infos| => infos[i]);
      assert backupFiles[..] == infos;
      SortNewestFirst(backupFiles);
      ghost var readable := matches - unreadable;
      DescribesPermuted(infos, backupFiles[..], files, readable);
      if backupFiles.Length < retentionCount {
        return Panicked, {};
      }
      kept := Head(backupFiles[..], retentionCount);
      DescribesDistinct(backupFiles[..], files, readable);
      HeadSize(backupFiles[..], retentionCount);
      HeadIsNewest(backupFiles[..], files, readable, retentionCount);
      outcome := RemoveTail(backupFiles, retentionCount, readable, unremovable);
    }

    /** The recurring path of OnBackupChange, undisturbed: a new backup file, then retention. */
    method RecurringBackup(backup: string, uid: string, rfc3339: string, encrypted: bool, time: int,
                           retentionCount: nat)
      requires PlainName(backup) && Uuid(uid) && RFC3339(rfc3339)
      requires BackupFile(backup, uid, rfc3339, encrypted) !in files
      modifies this
      ensures var pattern := RetentionPattern(backup, uid, encrypted);
              && RecurringRun(Followed(old(files), pattern), BackupFile(backup, uid, rfc3339, encrypted), time,
                              Followed(files, pattern), retentionCount)
              && files.Keys - Matching(files, pattern) == old(files).Keys - Matching(old(files), pattern)
    {
      hide Glob, Newest, Removed, RecurringRun, BackupFile, Restrict;
      var file, pattern := BackupFile(backup, uid, rfc3339, encrypted), RetentionPattern(backup, uid, encrypted);
      ghost var before := files;
      RetentionReachesIff(backup, backup, uid, rfc3339, encrypted, encrypted);
      files := files[file := time];
      ghost var start := files;
      var outcome;
      ghost var kept;
      outcome, kept := DeleteBackups(pattern, retentionCount, {}, {});
      assert Matching(start, pattern) - {} == Matching(start, pattern);
      UndisturbedIsDone(start, files, Matching(start, pattern) - kept);
      RetentionIsRecurringRun(before, file, time, files, pattern, retentionCount, kept);
    }

    method RemoveTail(backupFiles: array<BackupInfo>, n: nat, ghost names: set<string>, unremovable: set<string>)
      returns (outcome: Outcome)
      requires n <= backupFiles.Length && names <= files.Keys && Describes(backupFiles[..], files, names)
      modifies this
      ensures Removed(old(files), files, names - Head(backupFiles[..], n), unremovable, outcome)
    {
      hide Describes, Head;
      ghost var sorted, before, kept := backupFiles[..], files, Head(backupFiles[..], n);
      DescribesDistinct(sorted, files, names);
      HeadIsAll(sorted, files, names);
      HeadMonotone(sorted, n);
      for i := n to backupFiles.Length
        invariant backupFiles[..] == sorted
        invariant kept <= Head(sorted, i) <= names && (Head(sorted, i) - kept) !! unremovable
        invariant files == Restrict(before, before.Keys - (Head(sorted, i) - kept))
      {
        var file := backupFiles[i].filename;
        HeadNext(sorted, i, n);
        HeadMonotone(sorted, i + 1);
        if file in unremovable {
          assert file in names - kept;
          return RemoveFailed(file);
        }
        files := files - {file};
      }
      return Done;
    }
  }

  /** Exactly the doomed files were removed, or some of them up to the first removal that failed; the
      files that remain are as they were. */
  ghost predicate Removed(before: Files, after: Files, doomed: set<string>, unremovable: set<string>,
                          outcome: Outcome) {
    && after == Restrict(before, after.Keys)
    && before.Keys - doomed <= after.Keys <= before.Keys
    && (outcome == Done <==> doomed !! unremovable)
    && (outcome == Done ==> after.Keys == before.Keys - doomed)
    && !outcome.Panicked?
  }

  lemma DescribesDistinct(infos: seq<BackupInfo>, files: Files, names: set<string>)
    requires Describes(infos, files, names)
    ensures forall i, j | 0 <= i < j < |infos| :: infos[i].filename != infos[j].filename
  {
  }

  lemma DescribesOneMore(infos: seq<BackupInfo>, files: Files, names: set<string>, file: string)
    requires Describes(infos, files, names) && file in files && file !in names
    ensures Describes(infos + [BackupInfo(file, files[file])], files, names + {file})
  {
    var more := infos + [BackupInfo(file, files[file])];
    forall f | f in names + {file} ensures exists i :: 0 <= i < |more| && more[i].filename == f {
      if f == file {
        assert more[|infos|].filename == f;
      } else {
        var i :| 0 <= i < |infos| && infos[i].filename == f;
        assert more[i].filename == f;
      }
    }
  }

  lemma HeadIsAll(infos: seq<BackupInfo>, files: Files, names: set<string>)
    requires Describes(infos, files, names)
    ensures Head(infos, |infos|) == names
  {
    forall f | f in names ensures f in Head(infos, |infos|) {
      var i :| 0 <= i < |infos| && infos[i].filename == f;
    }
  }

  lemma DescribesSize(infos: seq<BackupInfo>, files: Files, names: set<string>)
    requires Describes(infos, files, names)
    ensures |infos| == |names|
  {
    HeadIsAll(infos, files, names);
    HeadSize(infos, |infos|);
  }

  lemma HeadMonotone(infos: seq<BackupInfo>, n: nat)
    requires n <= |infos|
    ensures Head(infos, n) <= Head(infos, |infos|)
  {
  }

  lemma HeadNext(infos: seq<BackupInfo>, i: nat, n: nat)
    requires n <= i < |infos|
    requires forall i, j | 0 <= i < j < |infos| :: infos[i].filename != infos[j].filename
    ensures Head(infos, i + 1) == Head(infos, i) + {infos[i].filename}
    ensures infos[i].filename !in Head(infos, i) && infos[i].filename !in Head(infos, n)
  {
  }

  /** What one undisturbed retention does to the matching files: the N newest of them remain. */
  lemma RetentionKeepsNewest(before: Files, after: Files, pattern: string, n: nat, kept: set<string>)
    requires var matches := Matching(before, pattern);
             if |matches| <= n then after == before
             else Newest(kept, Restrict(before, matches), n) && Removed(before, after, matches - kept, {}, Done)
    ensures Newest(Matching(after, pattern), Restrict(before, Matching(before, pattern)), n)
    ensures after.Keys - Matching(after, pattern) == before.Keys - Matching(before, pattern)
    ensures forall f | f in after :: f in before && after[f] == before[f]
  {
    hide Glob;
    var matches := Matching(before, pattern);
    var all := Restrict(before, matches);
    assert all.Keys == matches;
    KeysSize(all);
    if |matches| > n {
      assert Matching(after, pattern) == kept;
    }
  }

  lemma KeysSize(files: Files)
    ensures |files| == |files.Keys|
  {
  }

  // ---- any sequence of recurring runs ----

  /** A run writes a new file and then applies retention; only the matching files are followed. */
  ghost predicate RecurringRun(before: Files, name: string, time: int, after: Files, n: nat) {
    && name !in before
    && Newest(after.Keys, before[name := time], n)
    && after == Restrict(before[name := time], after.Keys)
  }

  /** An undisturbed retention after a new matching file is such a run. */
  lemma RetentionIsRecurringRun(before: Files, name: string, time: int, after: Files, pattern: string, n: nat,
                                kept: set<string>)
    requires name !in before && Glob(pattern, name)
    requires var start := before[name := time];
             var matches := Matching(start, pattern);
             if |matches| <= n then after == start
             else Newest(kept, Restrict(start, matches), n) && Removed(start, after, matches - kept, {}, Done)
    ensures RecurringRun(Followed(before, pattern), name, time, Followed(after, pattern), n)
    ensures after.Keys - Matching(after, pattern) == before.Keys - Matching(before, pattern)
  {
    hide Glob, Newest, Removed, Matching, Restrict;
    var start := before[name := time];
    var m, m' := Matching(start, pattern), Matching(after, pattern);
    RetentionKeepsNewest(start, after, pattern, n, kept);
    MatchingNewFile(before, name, time, pattern);
    MatchingIsThere(before, pattern);
    MatchingIsThere(after, pattern);
    NewestAreThere(m', Restrict(start, m), n);
    RestrictKeys(before, Matching(before, pattern));
    RestrictKeys(after, m');
    RestrictKeys(start, m);
    RestrictTwice(start, after, m, m');
    assert Followed(after, pattern).Keys == m';
    assert name !in Followed(before, pattern);
  }

  lemma MatchingNewFile(before: Files, name: string, time: int, pattern: string)
    requires name !in before && Glob(pattern, name)
    ensures var start := before[name := time];
            && Matching(start, pattern) == Matching(before, pattern) + {name}
            && Restrict(start, Matching(start, pattern)) == Restrict(before, Matching(before, pattern))[name := time]
  {
    hide Glob;
  }

  lemma MatchingIsThere(files: Files, pattern: string)
    ensures Matching(files, pattern) <= files.Keys
  {
    hide Glob;
  }

  lemma RestrictKeys(files: Files, names: set<string>)
    ensures Restrict(files, names).Keys == files.Keys * names
  {
  }

  lemma RestrictTwice(start: Files, after: Files, names: set<string>, more: set<string>)
    requires forall f | f in after :: f in start && after[f] == start[f]
    requires more <= after.Keys && more <= Restrict(start, names).Keys
    ensures Restrict(after, more) == Restrict(Restrict(start, names), more)
  {
  }

  /** The matching files. */
  function Followed(files: Files, pattern: string): Files {
    Restrict(files, Matching(files, pattern))
  }

  lemma UndisturbedIsDone(before: Files, after: Files, doomed: set<string>)
    ensures forall outcome | Removed(before, after, doomed, {}, outcome) :: outcome == Done
  {
  }

  lemma NewestAreThere(kept: set<string>, all: Files, n: nat)
    requires Newest(kept, all, n)
    ensures kept <= all.Keys
  {
  }

  /** Everything written so far: the files found at first and those the first k runs wrote. */
  function Everything(first: Files, names: seq<string>, times: seq<int>, k: nat): Files
    requires k <= |names| == |times|
  {
    if k == 0 then first else Everything(first, names, times, k - 1)[names[k - 1] := times[k - 1]]
  }

  /** Keeping the newest N of the survivors and one new file is keeping the newest N of everything. */
  lemma NewestOfSurvivors(all: Files, kept: set<string>, name: string, time: int, kept': set<string>, n: nat)
    requires Newest(kept, all, n) && name !in all
    requires Newest(kept', Restrict(all, kept)[name := time], n)
    ensures Newest(kept', all[name := time], n)
  {
    var some, every := Restrict(all, kept)[name := time], all[name := time];
    assert Restrict(all, kept).Keys == kept;
    assert some.Keys == kept + {name} && every.Keys == all.Keys + {name};
    KeysSize(all); KeysSize(some); KeysSize(every);
    forall k, d | k in kept' && d in every && d !in kept' ensures every[d] <= every[k] {
      if d in some {
        assert some[d] <= some[k];
      } else {
        DroppedEarlier(all, kept, name, time, kept', n, k, d);
      }
    }
  }

  /** A file dropped in an earlier run is no newer than one that survives the new run. */
  lemma DroppedEarlier(all: Files, kept: set<string>, name: string, time: int, kept': set<string>, n: nat, k: string,
                       d: string)
    requires Newest(kept, all, n) && name !in all
    requires Newest(kept', Restrict(all, kept)[name := time], n)
    requires k in kept' && d in all && d !in kept
    ensures k in all[name := time] && all[d] <= all[name := time][k]
  {
    var some := Restrict(all, kept)[name := time];
    assert Restrict(all, kept).Keys == kept && some.Keys == kept + {name};
    if k == name {
      KeysSize(all); KeysSize(some);
      SubsetSize(kept, all.Keys, d);
      var e := Outside(kept + {name}, kept');
      assert some[e] <= some[k] && all[d] <= all[e];
    }
  }

  lemma SubsetSize(a: set<string>, b: set<string>, d: string)
    requires a <= b && d in b - a
    ensures |a| < |b|
  {
    assert b == a + (b - a);
  }

  lemma Outside(a: set<string>, b: set<string>) returns (e: string)
    requires b <= a && |b| < |a|
    ensures e in a && e !in b
  {
    assert a == b + (a - b);
    assert |a - b| > 0;
    e :| e in a - b;
  }

  /** Over any sequence of recurring runs the matching files are the N newest of all that were ever there,
      at most N of them; the strictly newest is always among them. */
  lemma {:induction false} RunsKeepNewest(states: seq<Files>, names: seq<string>, times: seq<int>, n: nat, k: nat)
    requires |states| == |names| + 1 && |names| == |times| && 1 <= k <= |names| && n >= 1
    requires forall r | 0 <= r < |names| :: RecurringRun(states[r], names[r], times[r], states[r + 1], n)
    requires forall r | 0 <= r < |names| :: names[r] !in Everything(states[0], names, times, r)
    ensures var all := Everything(states[0], names, times, k);
            && Newest(states[k].Keys, all, n) && |states[k]| <= n
            && states[k] == Restrict(all, states[k].Keys)
            && forall f | StrictlyNewest(all, f) :: f in states[k]
    decreases k
  {
    var all := Everything(states[0], names, times, k);
    var before := Everything(states[0], names, times, k - 1);
    var name, time := names[k - 1], times[k - 1];
    assert RecurringRun(states[k - 1], name, time, states[k - 1 + 1], n);
    if k > 1 {
      RunsKeepNewest(states, names, times, n, k - 1);
      assert states[k - 1] == Restrict(before, states[k - 1].Keys);
      NewestOfSurvivors(before, states[k - 1].Keys, name, time, states[k].Keys, n);
    }
    KeysSize(states[k]);
    NewestHasNewest(states[k].Keys, all, n);
  }

  predicate StrictlyNewest(all: Files, f: string) {
    f in all && forall g | g in all && g != f :: all[g] < all[f]
  }

  lemma DroppedIsNotNewest(kept: set<string>, all: Files, n: nat, f: string)
    requires Newest(kept, all, n) && n >= 1 && f in all && f !in kept
    ensures !StrictlyNewest(all, f)
  {
    KeysSize(all);
    SubsetSize({}, all.Keys, f);
    var g :| g in kept;
    assert all[f] <= all[g];
  }

  lemma NewestHasNewest(kept: set<string>, all: Files, n: nat)
    requires Newest(kept, all, n) && n >= 1
    ensures forall f | StrictlyNewest(all, f) :: f in kept
  {
    forall f | StrictlyNewest(all, f) ensures f in kept {
      if f !in kept {
        DroppedIsNotNewest(kept, all, n, f);
      }
    }
  }
}
