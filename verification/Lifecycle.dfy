/** How long a submission can keep moving: the bound behind the retry edge. */
module Lifecycle {
  import opened Codes

  /** A history of statuses in which every adjacent pair is a legal transition. */
  ghost predicate LegalPath(path: seq<Status>) {
    && path != []
    && path[0] == Queued
    && forall i :: 0 < i < |path| ==> path[i - 1].CanTransitionTo(path[i])
  }

  /** How many steps of the path re-enter PREPARING from an active state. */
  function Reentries(path: seq<Status>): nat
    requires path != []
  {
    if |path| == 1 then 0
    else
      var n := |path| - 1;
      Reentries(path[..n]) + if path[n].Preparing? && !path[n - 1].Queued? then 1 else 0
  }

  function Rank(s: Status): nat {
    match s
    case Queued => 0 case Preparing => 1 case Building => 2
    case Booting => 3 case Running => 4 case Done => 5
  }

  /** Apart from re-entry the rank strictly grows, and a re-entry gives back at most three ranks. */
  lemma {:induction false} StepsWithinRank(path: seq<Status>)
    requires LegalPath(path)
    ensures |path| - 1 <= Rank(path[|path| - 1]) + 4 * Reentries(path)
  {
    if |path| > 1 {
      StepsWithinRank(path[..|path| - 1]);
    }
  }

  /** A path with r re-entries has at most 4r + 5 steps, and DONE can only be its last status. */
  lemma LifecycleBound(path: seq<Status>)
    requires LegalPath(path)
    ensures |path| - 1 <= 4 * Reentries(path) + 5
    ensures Done !in path[..|path| - 1]
  {
    StepsWithinRank(path);
    forall i | 0 <= i < |path| - 1 ensures path[i] != Done {
      assert path[i].CanTransitionTo(path[i + 1]);
    }
  }

  /** A legal move prolongs a legal path, and is a re-entry or not by its two ends. */
  lemma Prolong(path: seq<Status>, next: Status)
    requires LegalPath(path) && path[|path| - 1].CanTransitionTo(next)
    ensures LegalPath(path + [next])
    ensures Reentries(path + [next])
         == Reentries(path) + if next.Preparing? && !path[|path| - 1].Queued? then 1 else 0
  {
    assert (path + [next])[..|path|] == path;
  }

  /** QUEUED, then r + 1 full attempts, never finished. */
  function Attempts(r: nat): (path: seq<Status>)
    ensures |path| == 4 * r + 5
    ensures path[|path| - 1] == Running
  {
    (if r == 0 then [Queued] else Attempts(r - 1)) + [Preparing, Building, Booting, Running]
  }

  lemma {:induction false} AttemptsAreLegal(r: nat)
    ensures LegalPath(Attempts(r)) && Reentries(Attempts(r)) == r
  {
    if r > 0 {
      AttemptsAreLegal(r - 1);
    }
    var p0 := if r == 0 then [Queued] else Attempts(r - 1);
    Prolong(p0, Preparing);
    Prolong(p0 + [Preparing], Building);
    Prolong(p0 + [Preparing] + [Building], Booting);
    Prolong(p0 + [Preparing] + [Building] + [Booting], Running);
    assert Attempts(r) == p0 + [Preparing] + [Building] + [Booting] + [Running];
  }

  /** The bound is attained for every number of retries. */
  lemma LifecycleBoundAttained(r: nat)
    ensures exists path :: LegalPath(path) && Reentries(path) == r && |path| - 1 == 4 * r + 5
  {
    AttemptsAreLegal(r);
    Prolong(Attempts(r), Done);
    assert LegalPath(Attempts(r) + [Done]);
  }
}
