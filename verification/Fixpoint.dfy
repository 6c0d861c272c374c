/** Which objects a dependency-ordered restore can reach: the least set closed under
    "succeeds and all its counted owners were restored". */
module Fixpoint {
  /** `owners` lists the counted owner paths of each object of the phase, `good` the paths whose
      restore does not fail, and `before` the paths restored by earlier phases. */
  datatype Problem = Problem(owners: map<string, seq<string>>, good: set<string>, before: set<string>)

  predicate Enabled(pr: Problem, n: string, T: set<string>) {
    && n in pr.owners
    && n in pr.good
    && n !in pr.before
    && forall o | o in pr.owners[n] :: o in T
  }

  function Step(pr: Problem, T: set<string>): set<string> {
    set n | n in pr.owners && Enabled(pr, n, T)
  }

  ghost predicate Closed(pr: Problem, T: set<string>) {
    Step(pr, T) <= T
  }

  /** The least closed set, as the intersection of all closed sets. */
  ghost function Restorable(pr: Problem): set<string> {
    set n | n in pr.owners && forall T | Closed(pr, T) :: n in T
  }

  lemma RestorableIsLeast(pr: Problem, T: set<string>)
    requires Closed(pr, T)
    ensures Restorable(pr) <= T
  {
  }

  /** ... and it is a fixpoint: exactly the enabled objects are in it. */
  lemma RestorableIsFixpoint(pr: Problem)
    ensures Step(pr, Restorable(pr)) == Restorable(pr)
  {
    var R := Restorable(pr);
    forall n, T | n in Step(pr, R) && Closed(pr, T) ensures n in T {
      RestorableIsLeast(pr, T);
      assert n in Step(pr, T);
    }
    assert Step(pr, R) <= R;
    assert Step(pr, Step(pr, R)) <= Step(pr, R);
    RestorableIsLeast(pr, Step(pr, R));
  }

  /** A set is the restorable one as soon as it is closed and inside every closed set. */
  lemma RestorableUnique(pr: Problem, S: set<string>)
    requires Closed(pr, S)
    requires forall T | Closed(pr, T) :: S <= T
    ensures S == Restorable(pr)
  {
    RestorableIsLeast(pr, S);
    forall n | n in S ensures n in Restorable(pr) {
      RestorableIsFixpoint(pr);
      assert Closed(pr, Restorable(pr));
    }
  }

  /** Each member has a reason not to be restored that lies in the object itself or in another member. */
  predicate Blocked(pr: Problem, X: set<string>) {
    forall n | n in X :: n in pr.owners && n in pr.good && n !in pr.before ==> exists o | o in pr.owners[n] :: o in X
  }

  function Names(pr: Problem): set<string> {
    set n, o | n in pr.owners && o in pr.owners[n] :: o
  }

  /** An object is left out exactly when it lies in a blocked set: a cycle, a failing or an absent
      owner, or anything downstream of these. */
  lemma LeftOutIffBlocked(pr: Problem, n: string)
    ensures n !in Restorable(pr) <==> exists X: set<string> :: Blocked(pr, X) && n in X
  {
    var R := Restorable(pr);
    RestorableIsFixpoint(pr);
    if n !in R {
      var X := (pr.owners.Keys + Names(pr) + {n}) - R;
      forall m | m in X && m in pr.owners && m in pr.good && m !in pr.before
        ensures exists o | o in pr.owners[m] :: o in X
      {
        assert !Enabled(pr, m, R) by { assert m !in Step(pr, R); }
        var o :| o in pr.owners[m] && o !in R;
        assert o in Names(pr);
      }
      assert Blocked(pr, X);
    }
    forall X: set<string> | Blocked(pr, X) && n in X ensures n !in R {
      forall m | m in Step(pr, R - X) ensures m in R - X {
        assert m in Step(pr, R);
      }
      RestorableIsLeast(pr, R - X);
    }
  }

  predicate NoOwnerIn(pr: Problem, n: string, X: set<string>)
    requires n in pr.owners
  {
    forall o | o in pr.owners[n] :: o !in X
  }

  predicate HasSource(pr: Problem, X: set<string>)
    requires X <= pr.owners.Keys
  {
    exists n | n in X :: NoOwnerIn(pr, n, X)
  }

  /** No non-empty group of objects in which everyone waits for a member: in a finite graph, no cycle. */
  ghost predicate Acyclic(pr: Problem) {
    forall X: set<string> | X != {} && X <= pr.owners.Keys :: HasSource(pr, X)
  }

  predicate OwnersPresent(pr: Problem, n: string)
    requires n in pr.owners
  {
    forall o | o in pr.owners[n] :: o in pr.owners
  }

  predicate NothingInTheWay(pr: Problem) {
    forall n | n in pr.owners :: n in pr.good && n !in pr.before && OwnersPresent(pr, n)
  }

  lemma NotBlockedWhenEverythingRestorable(pr: Problem, X: set<string>)
    requires Restorable(pr) == pr.owners.Keys
    requires X != {} && X <= pr.owners.Keys
    ensures HasSource(pr, X)
  {
    var x :| x in X;
    LeftOutIffBlocked(pr, x);
    assert !Blocked(pr, X);
    var n :| n in X && !(exists o | o in pr.owners[n] :: o in X);
    assert NoOwnerIn(pr, n, X);
  }

  /** A phase restores everything exactly when nothing fails, nothing was there before, every
      counted owner is an object of the phase, and there is no cycle. */
  lemma EverythingRestorable(pr: Problem)
    ensures Restorable(pr) == pr.owners.Keys <==> NothingInTheWay(pr) && Acyclic(pr)
  {
    var R := Restorable(pr);
    RestorableIsFixpoint(pr);
    if R == pr.owners.Keys {
      forall n | n in pr.owners ensures Enabled(pr, n, R) {
        assert n in Step(pr, R);
      }
      forall X: set<string> | X != {} && X <= pr.owners.Keys
        ensures HasSource(pr, X)
      {
        NotBlockedWhenEverythingRestorable(pr, X);
      }
    }
    if NothingInTheWay(pr) && Acyclic(pr) {
      AcyclicReachesAll(pr);
    }
  }

  lemma AcyclicReachesAll(pr: Problem)
    requires NothingInTheWay(pr) && Acyclic(pr)
    ensures Restorable(pr) == pr.owners.Keys
  {
    var X := pr.owners.Keys - Restorable(pr);
    NoSourceLeftOut(pr, X);
    assert forall n | n in pr.owners :: n !in X;
  }

  lemma NoSourceLeftOut(pr: Problem, X: set<string>)
    requires NothingInTheWay(pr) && X == pr.owners.Keys - Restorable(pr)
    ensures !HasSource(pr, X)
  {
    forall n | n in X ensures !NoOwnerIn(pr, n, X) {
      assert OwnersPresent(pr, n);
      if NoOwnerIn(pr, n, X) {
        EnabledIsRestorable(pr, n, Restorable(pr));
      }
    }
  }

  lemma EnabledIsRestorable(pr: Problem, n: string, R: set<string>)
    requires R == Restorable(pr) && n in pr.owners && Enabled(pr, n, R)
    ensures n in R
  {
    RestorableIsFixpoint(pr);
    assert n in Step(pr, R);
  }

  /** If every observed outcome agrees with one success set `f`, a phase that never mistook a failure
      reaches exactly the set `f` alone determines: the order of the work does not matter. */
  lemma OutcomesDetermine(owners: map<string, seq<string>>, before: set<string>,
                          failed: set<string>, done: set<string>, f: set<string>)
    requires done == Restorable(Problem(owners, owners.Keys - failed, before))
    requires done <= f && failed !! f
    ensures done == Restorable(Problem(owners, f, before))
  {
    var pr, prF := Problem(owners, owners.Keys - failed, before), Problem(owners, f, before);
    RestorableIsFixpoint(pr);
    assert Closed(prF, done) by {
      forall n | n in Step(prF, done) ensures n in done {
        assert n in Step(pr, done);
      }
    }
    forall T | Closed(prF, T) ensures done <= T {
      var S := T + (owners.Keys - done);
      forall n | n in Step(pr, S) ensures n in S {
        if n in done {
          assert n in Step(pr, done);
          assert n in Step(prF, T);
        }
      }
      RestorableIsLeast(pr, S);
    }
    RestorableUnique(prF, done);
  }
}
