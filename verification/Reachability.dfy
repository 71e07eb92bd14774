/**
 Breadth-first search in the abstract: nodes within n steps, walks, and what a queue that is being
 worked off level by level knows. `next` gives the successors that a traversal's filters allow.
 */
module Reachability {

  type Id = string

  type Next = map<Id, set<Id>>

  function Succ(next: Next, u: Id): set<Id> { if u in next then next[u] else {} }

  function Succs(next: Next, us: set<Id>): set<Id> { set u, v | u in us && v in Succ(next, u) :: v }

  /** The nodes at most n steps away from `starts`; none for negative n. */
  function Within(next: Next, starts: set<Id>, n: int): set<Id>
    decreases n
  {
    if n < 0 then {}
    else if n == 0 then starts
    else Within(next, starts, n - 1) + Succs(next, Within(next, starts, n - 1))
  }

  /** Exactly n steps away, and no fewer. */
  ghost predicate AtDistance(next: Next, starts: set<Id>, v: Id, n: int) {
    v in Within(next, starts, n) && v !in Within(next, starts, n - 1)
  }

  ghost predicate IsWalk(next: Next, path: seq<Id>) {
    |path| >= 1 && forall i :: 0 <= i < |path| - 1 ==> path[i + 1] in Succ(next, path[i])
  }

  /** A walk along allowed edges from one of the starts. */
  ghost predicate IsWalkTo(next: Next, starts: set<Id>, v: Id, path: seq<Id>) {
    IsWalk(next, path) && path[0] in starts && path[|path| - 1] == v
  }

  lemma {:induction false} WithinGrows(next: Next, starts: set<Id>, n: int, m: int)
    requires n <= m
    ensures Within(next, starts, n) <= Within(next, starts, m)
    decreases m - n
  {
    if n < m {
      WithinGrows(next, starts, n, m - 1);
    }
  }

  /** A walk of k nodes stays within k - 1 steps. */
  lemma {:induction false} WalkIsWithin(next: Next, starts: set<Id>, v: Id, path: seq<Id>)
    requires IsWalkTo(next, starts, v, path)
    ensures v in Within(next, starts, |path| - 1)
    decreases |path|
  {
    if |path| > 1 {
      var init := path[..|path| - 1];
      var u := init[|init| - 1];
      assert IsWalk(next, init);
      WalkIsWithin(next, starts, u, init);
      assert v in Succ(next, u);
    }
  }

  /** Whatever is within n steps has a walk of at most n + 1 nodes. */
  lemma {:induction false} WithinHasWalk(next: Next, starts: set<Id>, v: Id, n: int) returns (path: seq<Id>)
    requires v in Within(next, starts, n)
    ensures IsWalkTo(next, starts, v, path) && |path| <= n + 1
    decreases n
  {
    if n == 0 {
      path := [v];
    } else if v in Within(next, starts, n - 1) {
      path := WithinHasWalk(next, starts, v, n - 1);
    } else {
      var u :| u in Within(next, starts, n - 1) && v in Succ(next, u);
      var p := WithinHasWalk(next, starts, u, n - 1);
      path := p + [v];
    }
  }

  /** A level that adds nothing is the last one. */
  lemma {:induction false} WithinStops(next: Next, starts: set<Id>, d: int, n: int)
    requires 0 <= d <= n && Within(next, starts, d + 1) == Within(next, starts, d)
    ensures Within(next, starts, n) == Within(next, starts, d)
    decreases n
  {
    if n > d {
      WithinStops(next, starts, d, n - 1);
    }
  }

  // ---------- The queue ----------

  /** The last nodes of the queued paths. */
  function Ends(paths: seq<seq<Id>>): set<Id>
    requires forall i :: 0 <= i < |paths| ==> |paths[i]| >= 1
  {
    set i | 0 <= i < |paths| :: paths[i][|paths[i]| - 1]
  }

  ghost predicate Paths(next: Next, starts: set<Id>, paths: seq<seq<Id>>, length: nat) {
    forall i :: 0 <= i < |paths| ==>
      |paths[i]| == length && length >= 1 && IsWalkTo(next, starts, paths[i][length - 1], paths[i])
  }

  ghost predicate DistinctEnds(paths: seq<seq<Id>>) {
    && (forall i :: 0 <= i < |paths| ==> |paths[i]| >= 1)
    && forall i, j :: 0 <= i < j < |paths| ==> paths[i][|paths[i]| - 1] != paths[j][|paths[j]| - 1]
  }

  /**
   While level d is worked off, `current` is what is left of it and `coming` what was found for
   level d + 1: the nodes seen are those within d steps and the successors of those worked off.
   */
  ghost predicate Frontier(next: Next, starts: set<Id>, d: nat, current: seq<seq<Id>>, coming: seq<seq<Id>>,
      seen: set<Id>) {
    && Paths(next, starts, current, d + 1) && Paths(next, starts, coming, d + 2)
    && DistinctEnds(current) && DistinctEnds(coming)
    && Ends(current) <= Within(next, starts, d) - Within(next, starts, d - 1)
    && seen == Within(next, starts, d) + Succs(next, Within(next, starts, d) - Ends(current))
    && Ends(coming) == seen - Within(next, starts, d)
  }

  /** Everything of level d worked off: level d + 1 is complete and takes its place. */
  lemma NextLevel(next: Next, starts: set<Id>, d: nat, coming: seq<seq<Id>>, seen: set<Id>)
    requires Frontier(next, starts, d, [], coming, seen)
    ensures Frontier(next, starts, d + 1, coming, [], seen)
  {
    assert Ends([]) == {};
    assert Within(next, starts, d) - {} == Within(next, starts, d);
    assert seen == Within(next, starts, d + 1);
    var worked := Within(next, starts, d + 1) - Ends(coming);
    assert worked == Within(next, starts, d);
    assert Succs(next, worked) <= Within(next, starts, d + 1);
  }

  /** With nothing queued, nothing more can be reached. */
  lemma Exhausted(next: Next, starts: set<Id>, d: nat, seen: set<Id>, n: int)
    requires Frontier(next, starts, d, [], [], seen)
    ensures Within(next, starts, n) <= Within(next, starts, d)
  {
    assert Ends([]) == {};
    assert Within(next, starts, d) - {} == Within(next, starts, d);
    assert Within(next, starts, d + 1) == Within(next, starts, d);
    if n >= d {
      WithinStops(next, starts, d, n);
    } else {
      WithinGrows(next, starts, n, d);
    }
  }

  /** What expanding a path queues: one longer path for each successor not seen before. */
  ghost predicate Expands(next: Next, path: seq<Id>, seen: set<Id>, added: seq<seq<Id>>)
    requires |path| >= 1
  {
    && DistinctEnds(added)
    && (forall i :: 0 <= i < |added| ==> |added[i]| == |path| + 1 && added[i][..|path|] == path)
    && Ends(added) == Succ(next, path[|path| - 1]) - seen
  }

  lemma ExpandedPaths(next: Next, starts: set<Id>, path: seq<Id>, seen: set<Id>, added: seq<seq<Id>>)
    requires |path| >= 1 && IsWalkTo(next, starts, path[|path| - 1], path) && Expands(next, path, seen, added)
    ensures Paths(next, starts, added, |path| + 1)
  {
    var n := |path|;
    forall i | 0 <= i < |added| ensures IsWalkTo(next, starts, added[i][n], added[i]) {
      var a := added[i];
      assert a[n] in Ends(added);
      forall k | 0 <= k < |a| - 1 ensures a[k + 1] in Succ(next, a[k]) {
        assert a[k] == a[..n][k] == path[k];
        if k < n - 1 {
          assert a[k + 1] == a[..n][k + 1] == path[k + 1];
        }
      }
      assert a[0] == a[..n][0];
    }
  }

  lemma EndsConcat(a: seq<seq<Id>>, b: seq<seq<Id>>)
    requires DistinctEnds(a) && DistinctEnds(b)
    ensures forall i :: 0 <= i < |a + b| ==> |(a + b)[i]| >= 1
    ensures Ends(a + b) == Ends(a) + Ends(b)
    ensures Ends(a) !! Ends(b) ==> DistinctEnds(a + b)
  {
    var c := a + b;
    forall v | v in Ends(a) + Ends(b) ensures v in Ends(c) {
      if v in Ends(a) {
        var i :| 0 <= i < |a| && v == a[i][|a[i]| - 1];
        assert c[i] == a[i];
      } else {
        var i :| 0 <= i < |b| && v == b[i][|b[i]| - 1];
        assert c[|a| + i] == b[i];
      }
    }
    if Ends(a) !! Ends(b) {
      forall i, j | 0 <= i < j < |c| ensures c[i][|c[i]| - 1] != c[j][|c[j]| - 1] {
        if i < |a| <= j {
          assert a[i][|a[i]| - 1] in Ends(a) && b[j - |a|][|b[j - |a|]| - 1] in Ends(b);
        }
      }
    }
  }

  /** The bookkeeping of sets when node u of a level w is worked off; `left` are the level's nodes still queued. */
  lemma WorkOffSets(next: Next, w: set<Id>, left: set<Id>, seen: set<Id>, u: Id, coming: set<Id>, added: set<Id>)
    requires u in left && left <= w && seen == w + Succs(next, w - left) && coming == seen - w
    requires added == Succ(next, u) - seen
    ensures seen + Succ(next, u) == w + Succs(next, w - (left - {u}))
    ensures coming + added == seen + Succ(next, u) - w
    ensures coming !! added
  {
    assert w - (left - {u}) == (w - left) + {u};
    assert Succs(next, (w - left) + {u}) == Succs(next, w - left) + Succ(next, u);
  }

  /** Working off the first path of the current level. */
  lemma WorkOff(next: Next, starts: set<Id>, d: nat, current: seq<seq<Id>>, coming: seq<seq<Id>>, seen: set<Id>,
      added: seq<seq<Id>>)
    requires current != [] && Frontier(next, starts, d, current, coming, seen)
    requires Expands(next, current[0], seen, added)
    ensures Frontier(next, starts, d, current[1..], coming + added, seen + Succ(next, current[0][d]))
  {
    var u := current[0][d];
    assert u in Ends(current);
    WorkOffSets(next, Within(next, starts, d), Ends(current), seen, u, Ends(coming), Ends(added));
    EndsOfTail(current);
    ExpandedPaths(next, starts, current[0], seen, added);
    EndsConcat(coming, added);
  }

  lemma EndsOfTail(paths: seq<seq<Id>>)
    requires paths != [] && DistinctEnds(paths)
    ensures DistinctEnds(paths[1..])
    ensures Ends(paths[1..]) == Ends(paths) - {paths[0][|paths[0]| - 1]}
  {
    var rest := paths[1..];
    forall v | v in Ends(paths) && v != paths[0][|paths[0]| - 1] ensures v in Ends(rest) {
      var i :| 0 <= i < |paths| && v == paths[i][|paths[i]| - 1];
      assert rest[i - 1] == paths[i];
    }
  }
}
