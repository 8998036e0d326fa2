/** What can happen next in a tree of post-build actions (app/specbuild/actions.go), exactly: the
    items of a parallel list run side by side, those of an ordered list one after another, and only
    a cancelled context makes a leaf return the error of cancellation. */
module ActionSteps {
  import opened Actions
  import opened ActionRuns
  import opened ActionCauses
  import opened Options

  /** Each ordered list on the path `p` has completed all items before the one on the path. */
  predicate Reached(n: Node, p: Path)
    decreases |p|
  {
    p == []
    || ((n.InOrder? || n.InParallel?) && p[0] < |n.items|
        && (n.InOrder? ==> forall j :: 0 <= j < p[0] ==> Status(n.items[j]) == Some(Nil))
        && Reached(n.items[p[0]], p[1..]))
  }

  /** The item of an ordered list that holds an unfinished unit is the current one, if reached. */
  lemma CurrentIs(items: seq<Node>, i: nat)
    requires i < |items| && Status(items[i]) != Some(Nil)
    ensures Current(items) == i <==> forall j :: 0 <= j < i ==> Status(items[j]) == Some(Nil)
  {
  }

  /** A leaf can start exactly when it has not and its turn has come: in a parallel list nobody
      waits for a sibling. */
  lemma {:induction false} StartIff(a: Action, n: Node, cancelled: bool, p: Path)
    requires Shaped(a, n) && Good(n) && Unit(a, p)
    ensures Enabled(n, cancelled, Start(p)) <==> UnitAt(a, n, p) == Idle && Reached(n, p)
    decreases a
  {
    if n.InOrder? || n.InParallel? {
      var i, c := p[0], cancelled || (n.InParallel? && n.first != Nil);
      StartIff(a.subactions[i], n.items[i], c, p[1..]);
      assert Inside(Start(p)) == Start(p[1..]);
      if n.InOrder? && UnitAt(a, n, p) == Idle { Unfinished(a, n, p); }
    }
  }

  lemma {:induction false} RejectIff(a: Action, n: Node, cancelled: bool, p: Path)
    requires Shaped(a, n) && Good(n) && Unit(a, p)
    ensures Enabled(n, cancelled, Reject(p)) <==> UnitAt(a, n, p) == Rejected(false) && Reached(n, p)
    decreases a
  {
    if n.InOrder? || n.InParallel? {
      var i, c := p[0], cancelled || (n.InParallel? && n.first != Nil);
      RejectIff(a.subactions[i], n.items[i], c, p[1..]);
      assert Inside(Reject(p)) == Reject(p[1..]);
      if n.InOrder? && UnitAt(a, n, p) == Rejected(false) { Unfinished(a, n, p); }
    }
  }

  /** A running leaf can return anything at any time, but the error of cancellation exactly when its
      context is cancelled: by the caller, or by the first failure in a parallel list above it. */
  lemma {:induction false} FinishIff(a: Action, n: Node, cancelled: bool, p: Path, r: Result)
    requires Shaped(a, n) && Good(n) && Unit(a, p) && UnitAt(a, n, p) == Running
    ensures Enabled(n, cancelled, Finish(p, r)) <==> (r == Cancelled ==> ContextCancelled(n, cancelled, p))
    decreases a
  {
    if n.InOrder? || n.InParallel? {
      var i, c := p[0], cancelled || (n.InParallel? && n.first != Nil);
      FinishIff(a.subactions[i], n.items[i], c, p[1..], r);
      assert Inside(Finish(p, r)) == Finish(p[1..], r);
      if n.InOrder? {
        Unfinished(a, n, p);
        StartedIsCurrent(a, n, p);
      }
    }
  }

  /** Only a running leaf can return. */
  lemma {:induction false} FinishIsRunning(a: Action, n: Node, cancelled: bool, p: Path, r: Result)
    requires Shaped(a, n) && Unit(a, p) && Enabled(n, cancelled, Finish(p, r))
    ensures UnitAt(a, n, p) == Running
    decreases a
  {
    if n.InOrder? || n.InParallel? {
      FinishIsRunning(a.subactions[p[0]], n.items[p[0]], cancelled || (n.InParallel? && n.first != Nil), p[1..], r);
    }
  }

  lemma Unfinished(a: Action, n: Node, p: Path)
    requires Shaped(a, n) && Good(n) && Unit(a, p) && n.InOrder? && UnitAt(a, n, p) != Returned(Nil)
    ensures Status(n.items[p[0]]) != Some(Nil)
    ensures Current(n.items) == p[0] <==> forall j :: 0 <= j < p[0] ==> Status(n.items[j]) == Some(Nil)
  {
    if Status(n.items[p[0]]) == Some(Nil) {
      NilIsComplete(a.subactions[p[0]], n.items[p[0]], p[1..]);
    }
    CurrentIs(n.items, p[0]);
  }

  lemma StartedIsCurrent(a: Action, n: Node, p: Path)
    requires Shaped(a, n) && Good(n) && Unit(a, p) && n.InOrder? && UnitAt(a, n, p) == Running
    ensures Current(n.items) == p[0]
  {
    Unfinished(a, n, p);
    if Current(n.items) < p[0] {
      FreshUnit(a.subactions[p[0]], n.items[p[0]], p[1..]);
    }
  }

  /** A goroutine of the parallel list at `q` can hand in its result exactly once, when it has one. */
  lemma {:induction false} HandInIff(root: Node, q: Path, n: Node, i: nat, cancelled: bool)
    requires Good(root) && IsAt(root, q, n) && Reached(root, q) && n.InParallel? && i < |n.items| == |n.handedIn|
    ensures Enabled(root, cancelled, HandIn(q + [i])) <==> Status(n.items[i]).Some? && !n.handedIn[i]
    decreases |q|
  {
    var e := HandIn(q + [i]);
    if q == [] {
      assert e == HandIn([i]);
      NoHandInBelow(n.items[i], cancelled || n.first != Nil);
    } else {
      var item, c := root.items[q[0]], cancelled || (root.InParallel? && root.first != Nil);
      assert Inside(e) == HandIn(q[1..] + [i]) by { assert (q + [i])[1..] == q[1..] + [i]; }
      HandInIff(item, q[1..], n, i, c);
      assert |e.path| > 1;
      if !n.handedIn[i] {
        OpenBelow(item, q[1..], n, i);
        if root.InOrder? { CurrentIs(root.items, q[0]); }
      }
    }
  }

  lemma NoHandInBelow(n: Node, cancelled: bool)
    ensures !Enabled(n, cancelled, HandIn([]))
  {
  }

  /** As long as somebody below has not handed in, a node has not returned. */
  lemma {:induction false} OpenBelow(root: Node, q: Path, n: Node, i: nat)
    requires Good(root) && IsAt(root, q, n) && Reached(root, q) && n.InParallel? && i < |n.items| == |n.handedIn|
    requires !n.handedIn[i]
    ensures Status(root) == None
    decreases |q|
  {
    if q != [] {
      OpenBelow(root.items[q[0]], q[1..], n, i);
      if root.InOrder? {
        CurrentIs(root.items, q[0]);
        StatusIsCurrent(root.items);
      } else {
        assert !root.handedIn[q[0]];
      }
    }
  }

  /** Two leaves of one parallel list, side by side. */
  lemma SideBySide() returns (es: seq<Event>)
    ensures es == [Start([0]), Start([1])] && Valid(Spawn(Parallel([Leaf, Leaf])), es, 2)
    ensures Run(Spawn(Parallel([Leaf, Leaf])), es, 2).items == [Running, Running]
  {
    var a := Parallel([Leaf, Leaf]);
    var n := Spawn(a);
    assert n.items == [Idle, Idle];
    es := [Start([0]), Start([1])];
    assert es[..1] == [Start([0])] && es[..1][..0] == [];
    StartedFirst(n);
  }

  lemma StartedFirst(n: Node)
    requires n.InParallel? && n.items == [Idle, Idle] && |n.handedIn| == 2
    ensures Enabled(n, false, Start([0])) && Enabled(Next(n, false, Start([0])), false, Start([1]))
    ensures Next(n, false, Start([0])).items == [Running, Idle]
    ensures Next(Next(n, false, Start([0])), false, Start([1])).items == [Running, Running]
  {
    assert Inside(Start([0])) == Start([]) && Inside(Start([1])) == Start([]);
    assert [Idle, Idle][0 := Running] == [Running, Idle];
    assert [Running, Idle][1 := Running] == [Running, Running];
  }
}
