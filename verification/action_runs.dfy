/** Whole runs of PerformActions (app/specbuild/actions.go): order, completeness, errors, and
    termination. */
module ActionRuns {
  import opened Options
  import opened Actions

  /** A run of the list `n`, in which the caller's context is cancelled from event number
      `cancelAt` on. */
  function Run(n: Node, es: seq<Event>, cancelAt: nat): Node
    requires Valid(n, es, cancelAt)
    decreases |es|, 1
  {
    if es == [] then n
    else var k := |es| - 1; Next(Run(n, es[..k], cancelAt), k >= cancelAt, es[k])
  }

  predicate Valid(n: Node, es: seq<Event>, cancelAt: nat)
    decreases |es|, 0
  {
    es == []
    || var k := |es| - 1;
       Valid(n, es[..k], cancelAt) && Enabled(Run(n, es[..k], cancelAt), k >= cancelAt, es[k])
  }

  lemma {:induction false} RunGood(a: Action, es: seq<Event>, cancelAt: nat)
    requires Valid(Spawn(a), es, cancelAt)
    ensures Shaped(a, Run(Spawn(a), es, cancelAt)) && Good(Run(Spawn(a), es, cancelAt))
  {
    SpawnGood(a);
    if es != [] {
      var k := |es| - 1;
      RunGood(a, es[..k], cancelAt);
      StepShaped(a, Run(Spawn(a), es[..k], cancelAt), k >= cancelAt, es[k]);
      StepGood(Run(Spawn(a), es[..k], cancelAt), k >= cancelAt, es[k]);
    }
  }

  // ---------------------------------------------------------------- what has returned is over

  /** No leaf is running. */
  ghost predicate Quiet(n: Node)
    decreases n
  {
    match n
    case Running => false
    case InOrder(items) => forall i :: 0 <= i < |items| ==> Quiet(items[i])
    case InParallel(items, _, _) => forall i :: 0 <= i < |items| ==> Quiet(items[i])
    case _ => true
  }

  lemma {:induction false} FreshIsQuiet(n: Node)
    requires Fresh(n)
    ensures Quiet(n)
    decreases n
  {
    match n
    case InOrder(items) => forall i | 0 <= i < |items| ensures Quiet(items[i]) { FreshIsQuiet(items[i]); }
    case InParallel(items, _, _) => forall i | 0 <= i < |items| ensures Quiet(items[i]) { FreshIsQuiet(items[i]); }
    case _ =>
  }

  /** On any return, error included, no leaf call is still in flight. */
  lemma {:induction false} ReturnedIsQuiet(n: Node)
    requires Good(n) && Status(n).Some?
    ensures Quiet(n)
    decreases n
  {
    match n
    case InOrder(items) =>
      StatusIsCurrent(items);
      forall i | 0 <= i < |items| ensures Quiet(items[i]) {
        if i <= Current(items) { ReturnedIsQuiet(items[i]); } else { FreshIsQuiet(items[i]); }
      }
    case InParallel(items, _, _) =>
      forall i | 0 <= i < |items| ensures Quiet(items[i]) { ReturnedIsQuiet(items[i]); }
    case _ =>
  }

  /** An action that returned nil ran everything below it, and everything returned nil. */
  lemma {:induction false} NilIsComplete(a: Action, n: Node, p: Path)
    requires Shaped(a, n) && Good(n) && Status(n) == Some(Nil) && Unit(a, p)
    ensures UnitAt(a, n, p) == Returned(Nil)
    decreases a
  {
    match a
    case Ordered(subs) =>
      StatusIsCurrent(n.items);
      NilIsComplete(subs[p[0]], n.items[p[0]], p[1..]);
    case Parallel(subs) => NilIsComplete(subs[p[0]], n.items[p[0]], p[1..]);
    case _ =>
  }

  /** A unit that comes after one that has not returned nil is untouched. */
  lemma {:induction false} LaterIsFresh(a: Action, n: Node, p: Path, q: Path)
    requires Shaped(a, n) && Good(n) && Unit(a, p) && Unit(a, q) && Earlier(a, p, q)
    requires UnitAt(a, n, p) != Returned(Nil)
    ensures Fresh(UnitAt(a, n, q))
    decreases a
  {
    match a
    case Ordered(subs) =>
      if p[0] == q[0] {
        LaterIsFresh(subs[p[0]], n.items[p[0]], p[1..], q[1..]);
      } else {
        if p[0] < Current(n.items) {
          NilIsComplete(subs[p[0]], n.items[p[0]], p[1..]);
        }
        FreshUnit(subs[q[0]], n.items[q[0]], q[1..]);
      }
    case Parallel(subs) => LaterIsFresh(subs[p[0]], n.items[p[0]], p[1..], q[1..]);
  }

  lemma {:induction false} FreshUnit(a: Action, n: Node, p: Path)
    requires Shaped(a, n) && Fresh(n) && Unit(a, p)
    ensures Fresh(UnitAt(a, n, p))
    decreases a
  {
    match a
    case Ordered(subs) => FreshUnit(subs[p[0]], n.items[p[0]], p[1..]);
    case Parallel(subs) => FreshUnit(subs[p[0]], n.items[p[0]], p[1..]);
    case _ =>
  }

  // ---------------------------------------------------------------- the trace tells the state

  /** The events of the unit at `p`, in order. */
  function EventsAt(es: seq<Event>, p: Path): seq<Event> {
    if es == [] then []
    else EventsAt(es[..|es| - 1], p) + Picked(es[|es| - 1], p)
  }

  function Picked(e: Event, p: Path): seq<Event> {
    if e.path == p && !e.HandIn? then [e] else []
  }

  /** The events that bring a unit to where it is. */
  function Story(unit: Node, p: Path): seq<Event> {
    match unit
    case Running => [Start(p)]
    case Returned(r) => [Start(p), Finish(p, r)]
    case Rejected(done) => if done then [Reject(p)] else []
    case _ => []
  }

  lemma UnitStory(a: Action, n: Node, cancelled: bool, e: Event, p: Path, at: Path)
    requires (a.Leaf? || a.Unknown?) && Shaped(a, n) && Enabled(n, cancelled, e) && Unit(a, p)
    ensures Shaped(a, Next(n, cancelled, e))
    ensures Story(Next(n, cancelled, e), at + p) == Story(n, at + p) + Picked(e.(path := at + e.path), at + p)
  {
    assert e.path == p == [];
  }

  lemma OtherItem(e: Event, p: Path, at: Path)
    requires e.path != [] && p != [] && (p[0] != e.path[0] || e.HandIn?)
    ensures Picked(e.(path := at + e.path), at + p) == []
  {
    assert (at + e.path)[|at|] == e.path[0] && (at + p)[|at|] == p[0];
  }

  lemma Nested(at: Path, p: Path)
    requires p != []
    ensures at + [p[0]] + p[1..] == at + p
  {
  }

  /** A list's step is a step of the item that the event names, unless it hands in. */
  lemma NextItem(n: Node, cancelled: bool, e: Event, k: nat)
    requires (n.InOrder? || n.InParallel?) && Enabled(n, cancelled, e) && k < |n.items|
    ensures var n' := Next(n, cancelled, e); var c := cancelled || (n.InParallel? && n.first != Nil);
      && (n'.InOrder? || n'.InParallel?) && |n'.items| == |n.items|
      && (k != e.path[0] || (n.InParallel? && e == HandIn([k])) ==> n'.items[k] == n.items[k])
      && (k == e.path[0] && !(n.InParallel? && e == HandIn([k])) ==>
            Enabled(n.items[k], c, Inside(e)) && n'.items[k] == Next(n.items[k], c, Inside(e)))
  {
  }

  lemma {:induction false} StepStory(a: Action, n: Node, cancelled: bool, e: Event, p: Path, at: Path)
    requires Shaped(a, n) && Good(n) && Enabled(n, cancelled, e) && Unit(a, p)
    requires Shaped(a, Next(n, cancelled, e))
    ensures Story(UnitAt(a, Next(n, cancelled, e), p), at + p)
            == Story(UnitAt(a, n, p), at + p) + Picked(e.(path := at + e.path), at + p)
    decreases a
  {
    if a.Leaf? || a.Unknown? {
      UnitStory(a, n, cancelled, e, p, at);
    } else if p[0] != e.path[0] || e == HandIn([e.path[0]]) {
      OtherItem(e, p, at);
      NextItem(n, cancelled, e, p[0]);
    } else {
      var i := e.path[0];
      var c := cancelled || (a.Parallel? && n.first != Nil);
      NextItem(n, cancelled, e, i);
      StepStory(a.subactions[i], n.items[i], c, Inside(e), p[1..], at + [i]);
      Nested(at, p);
      Nested(at, e.path);
    }
  }

  /** In every run the state of each unit is what its own events say. */
  lemma {:induction false} TraceIsState(a: Action, es: seq<Event>, cancelAt: nat, p: Path)
    requires Valid(Spawn(a), es, cancelAt) && Unit(a, p)
    ensures Shaped(a, Run(Spawn(a), es, cancelAt))
    ensures EventsAt(es, p) == Story(UnitAt(a, Run(Spawn(a), es, cancelAt), p), p)
  {
    RunGood(a, es, cancelAt);
    if es == [] {
      SpawnGood(a);
      FreshUnit(a, Spawn(a), p);
    } else {
      var k := |es| - 1;
      TraceIsState(a, es[..k], cancelAt, p);
      RunGood(a, es[..k], cancelAt);
      StepStory(a, Run(Spawn(a), es[..k], cancelAt), k >= cancelAt, es[k], p, []);
      assert [] + p == p && [] + es[k].path == es[k].path;
    }
  }

  // ---------------------------------------------------------------- the theorems

  /** If anything has happened at `q`, what comes before it is complete. */
  lemma EarlierIsComplete(a: Action, es: seq<Event>, cancelAt: nat, p: Path, q: Path)
    requires Valid(Spawn(a), es, cancelAt) && Unit(a, p) && Unit(a, q) && Earlier(a, p, q)
    requires EventsAt(es, q) != []
    ensures EventsAt(es, p) == [Start(p), Finish(p, Nil)]
  {
    TraceIsState(a, es, cancelAt, p);
    TraceIsState(a, es, cancelAt, q);
    RunGood(a, es, cancelAt);
    if UnitAt(a, Run(Spawn(a), es, cancelAt), p) != Returned(Nil) {
      LaterIsFresh(a, Run(Spawn(a), es, cancelAt), p, q);
    }
  }

  /** Series-parallel order, in every run, finished or not, successful or not: before anything
      happens at a unit, everything that an ordered list puts before it has started, finished, and
      returned nil, once each. So in an ordered list nothing after the first failing item starts. */
  lemma OrderIsKept(a: Action, es: seq<Event>, cancelAt: nat, p: Path, q: Path, k: nat)
    requires Valid(Spawn(a), es, cancelAt) && Unit(a, p) && Unit(a, q) && Earlier(a, p, q)
    requires k < |es| && es[k].path == q && !es[k].HandIn?
    ensures EventsAt(es[..k], p) == [Start(p), Finish(p, Nil)]
  {
    ValidPrefix(Spawn(a), es, cancelAt, k + 1);
    EventsSnoc(es, k, p);
    EventsSnoc(es, k, q);
    EarlierDiffers(a, p, q);
    EarlierIsComplete(a, es[..k + 1], cancelAt, p, q);
  }

  lemma EventsSnoc(es: seq<Event>, k: nat, p: Path)
    requires k < |es|
    ensures EventsAt(es[..k + 1], p) == EventsAt(es[..k], p) + Picked(es[k], p)
  {
    assert es[..k + 1][..k] == es[..k];
  }

  lemma {:induction false} EarlierDiffers(a: Action, p: Path, q: Path)
    requires Unit(a, p) && Unit(a, q) && Earlier(a, p, q)
    ensures p != q
    decreases a
  {
    if p[0] == q[0] { EarlierDiffers(a.subactions[p[0]], p[1..], q[1..]); }
  }

  lemma {:induction false} ValidPrefix(n: Node, es: seq<Event>, cancelAt: nat, k: nat)
    requires Valid(n, es, cancelAt) && k <= |es|
    ensures Valid(n, es[..k], cancelAt)
    decreases |es|
  {
    if k < |es| {
      ValidPrefix(n, es[..|es| - 1], cancelAt, k);
      assert es[..|es| - 1][..k] == es[..k];
    } else {
      assert es[..k] == es;
    }
  }

  predicate RanOnce(es: seq<Event>, p: Path) {
    EventsAt(es, p) == [Start(p), Finish(p, Nil)]
  }

  ghost predicate EveryUnitRan(a: Action, es: seq<Event>) {
    forall p :: Unit(a, p) ==> RanOnce(es, p)
  }

  /** PerformActions returns nil if and only if every leaf ran exactly once and returned nil (and no
      action had an unknown name); on any return no leaf is still in flight, and nothing happens any
      more. */
  lemma ReturnIsFinal(a: Action, es: seq<Event>, cancelAt: nat)
    requires Valid(Spawn(a), es, cancelAt) && Status(Run(Spawn(a), es, cancelAt)).Some?
    ensures var n := Run(Spawn(a), es, cancelAt);
      && Quiet(n)
      && (forall c, e :: !Enabled(n, c, e))
      && (Status(n) == Some(Nil) <==> EveryUnitRan(a, es))
  {
    var n := Run(Spawn(a), es, cancelAt);
    RunGood(a, es, cancelAt);
    ReturnedIsQuiet(n);
    forall c, e ensures !Enabled(n, c, e) { ReturnedIsStuck(n, c, e); }
    if Status(n) == Some(Nil) {
      forall p | Unit(a, p) ensures RanOnce(es, p) {
        TraceIsState(a, es, cancelAt, p);
        NilIsComplete(a, n, p);
      }
    } else {
      var p := ErrorHasOrigin(a, n);
      TraceIsState(a, es, cancelAt, p);
      assert !RanOnce(es, p);
    }
  }

  // ---------------------------------------------------------------- errors

  /** As long as the context of `n` is not cancelled from outside, nothing that decides its
      result is an error of cancellation. */
  ghost predicate Genuine(n: Node)
    decreases n
  {
    match n
    case Returned(r) => r != Cancelled
    case InOrder(items) => forall i :: 0 <= i < |items| ==> Genuine(items[i])
    case InParallel(items, _, first) =>
      first != Cancelled && (first == Nil ==> forall i :: 0 <= i < |items| ==> Genuine(items[i]))
    case _ => true
  }

  lemma {:induction false} GenuineStatus(n: Node)
    requires Genuine(n)
    ensures Status(n) != Some(Cancelled)
    decreases n
  {
    match n
    case InOrder(items) =>
      StatusIsCurrent(items);
      if Current(items) < |items| { GenuineStatus(items[Current(items)]); }
    case _ =>
  }

  lemma {:induction false} GenuineStep(n: Node, e: Event)
    requires Genuine(n) && Enabled(n, false, e)
    ensures Genuine(Next(n, false, e))
    decreases n
  {
    match n
    case InOrder(items) => GenuineStep(items[e.path[0]], Inside(e));
    case InParallel(items, _, first) =>
      if e == HandIn([e.path[0]]) {
        if first == Nil { GenuineStatus(items[e.path[0]]); }
      } else if first == Nil {
        GenuineStep(items[e.path[0]], Inside(e));
      }
    case _ =>
  }

  lemma {:induction false} FreshIsGenuine(n: Node)
    requires Fresh(n)
    ensures Genuine(n)
    decreases n
  {
    match n
    case InOrder(items) => forall i | 0 <= i < |items| ensures Genuine(items[i]) { FreshIsGenuine(items[i]); }
    case InParallel(items, _, _) => forall i | 0 <= i < |items| ensures Genuine(items[i]) { FreshIsGenuine(items[i]); }
    case _ =>
  }

  lemma {:induction false} GenuineRun(a: Action, es: seq<Event>, cancelAt: nat)
    requires Valid(Spawn(a), es, cancelAt) && |es| <= cancelAt
    ensures Genuine(Run(Spawn(a), es, cancelAt))
  {
    if es == [] {
      SpawnGood(a);
      FreshIsGenuine(Spawn(a));
    } else {
      GenuineRun(a, es[..|es| - 1], cancelAt);
      GenuineStep(Run(Spawn(a), es[..|es| - 1], cancelAt), es[|es| - 1]);
    }
  }

  /** The error of a tree is the error of one of its units. */
  lemma {:induction false} ErrorHasOrigin(a: Action, n: Node) returns (p: Path)
    requires Shaped(a, n) && Good(n) && Status(n).Some? && Status(n) != Some(Nil)
    ensures Unit(a, p)
    ensures UnitAt(a, n, p) == Returned(Status(n).value)
      || (UnitAt(a, n, p) == Rejected(true) && Status(n).value == UNKNOWN_ACTION)
    decreases a
  {
    match n
    case InOrder(items) =>
      StatusIsCurrent(items);
      var i := Current(items);
      var q := ErrorHasOrigin(a.subactions[i], items[i]);
      p := [i] + q;
    case InParallel(items, handedIn, first) =>
      var i :| 0 <= i < |items| && handedIn[i] && Status(items[i]) == Some(first);
      var q := ErrorHasOrigin(a.subactions[i], items[i]);
      p := [i] + q;
    case _ =>
      p := [];
  }

  /** Error provenance: unless the caller's context was cancelled, the error returned is one that
      a leaf returned on its own account, or that of an unknown action; never the echo of a
      cancellation by a sibling. */
  lemma ErrorProvenance(a: Action, es: seq<Event>, cancelAt: nat) returns (p: Path)
    requires Valid(Spawn(a), es, cancelAt) && |es| <= cancelAt
    requires var s := Status(Run(Spawn(a), es, cancelAt)); s.Some? && s != Some(Nil)
    ensures Status(Run(Spawn(a), es, cancelAt)).value.Failed?
    ensures Unit(a, p)
    ensures var r := Status(Run(Spawn(a), es, cancelAt)).value;
      EventsAt(es, p) == [Start(p), Finish(p, r)] || (EventsAt(es, p) == [Reject(p)] && r == UNKNOWN_ACTION)
  {
    var n := Run(Spawn(a), es, cancelAt);
    RunGood(a, es, cancelAt);
    GenuineRun(a, es, cancelAt);
    GenuineStatus(n);
    p := ErrorHasOrigin(a, n);
    TraceIsState(a, es, cancelAt, p);
    StoryOfError(UnitAt(a, n, p), p, Status(n).value);
  }

  lemma StoryOfError(unit: Node, p: Path, r: Result)
    requires unit == Returned(r) || (unit == Rejected(true) && r == UNKNOWN_ACTION)
    requires r != Nil && r != Cancelled
    ensures r.Failed?
    ensures Story(unit, p) == [Start(p), Finish(p, r)] || (Story(unit, p) == [Reject(p)] && r == UNKNOWN_ACTION)
  {
  }

  // ---------------------------------------------------------------- progress

  function Sum(items: seq<Node>): nat
    decreases items
  {
    if items == [] then 0 else Weight(items[0]) + Sum(items[1..])
  }

  function Missing(handedIn: seq<bool>): nat {
    if handedIn == [] then 0 else (if handedIn[0] then 0 else 1) + Missing(handedIn[1..])
  }

  /** How many events a tree still has before it, at most. */
  function Weight(n: Node): nat
    decreases n
  {
    match n
    case Idle => 2
    case Running => 1
    case Returned(_) => 0
    case Rejected(done) => if done then 0 else 1
    case InOrder(items) => Sum(items)
    case InParallel(items, handedIn, _) => Sum(items) + Missing(handedIn)
  }

  lemma {:induction false} SumUpdate(items: seq<Node>, i: nat, x: Node)
    requires i < |items|
    ensures Sum(items[i := x]) == Sum(items) - Weight(items[i]) + Weight(x)
    decreases |items|
  {
    if i > 0 {
      assert items[i := x][1..] == items[1..][i - 1 := x];
      SumUpdate(items[1..], i - 1, x);
    } else {
      assert items[i := x][1..] == items[1..];
    }
  }

  lemma {:induction false} MissingUpdate(h: seq<bool>, i: nat)
    requires i < |h| && !h[i]
    ensures Missing(h[i := true]) == Missing(h) - 1
    decreases |h|
  {
    if i > 0 {
      assert h[i := true][1..] == h[1..][i - 1 := true];
      MissingUpdate(h[1..], i - 1);
    } else {
      assert h[i := true][1..] == h[1..];
    }
  }

  lemma {:induction false} StepWeight(n: Node, cancelled: bool, e: Event)
    requires Enabled(n, cancelled, e)
    ensures Weight(Next(n, cancelled, e)) == Weight(n) - 1
    decreases n
  {
    match n
    case InOrder(items) =>
      StepWeight(items[e.path[0]], cancelled, Inside(e));
      SumUpdate(items, e.path[0], Next(items[e.path[0]], cancelled, Inside(e)));
    case InParallel(items, handedIn, first) =>
      var i := e.path[0];
      if e == HandIn([i]) {
        MissingUpdate(handedIn, i);
      } else {
        StepWeight(items[i], cancelled || first != Nil, Inside(e));
        SumUpdate(items, i, Next(items[i], cancelled || first != Nil, Inside(e)));
      }
    case _ =>
  }

  /** A tree that has not returned can always go on. */
  lemma {:induction false} CanGoOn(a: Action, n: Node, cancelled: bool) returns (e: Event)
    requires Shaped(a, n) && Good(n) && Status(n) == None
    ensures Enabled(n, cancelled, e)
    decreases a
  {
    match n
    case Idle => e := Start([]);
    case Running => e := Finish([], Nil);
    case Rejected(_) => e := Reject([]);
    case InOrder(items) =>
      StatusIsCurrent(items);
      var i := Current(items);
      var x := CanGoOn(a.subactions[i], items[i], cancelled);
      e := Under(i, x);
      assert Inside(e) == x;
    case InParallel(items, handedIn, first) =>
      var i: nat :| i < |handedIn| && !handedIn[i];
      if Status(items[i]).Some? {
        e := HandIn([i]);
      } else {
        var x := CanGoOn(a.subactions[i], items[i], cancelled || first != Nil);
        e := Under(i, x);
        assert Inside(e) == x;
        if e == HandIn([i]) {
          NotHandIn(items[i], cancelled || first != Nil, x);
        }
      }
  }

  lemma NotHandIn(n: Node, cancelled: bool, e: Event)
    requires Enabled(n, cancelled, e)
    ensures e != HandIn([])
  {
  }

  ghost predicate CanMove(n: Node, cancelled: bool) {
    exists e :: Enabled(n, cancelled, e)
  }

  /** PerformActions returns: a run has no more events than the tree had weight to begin with,
      and it is over exactly when the tree has returned: until then some leaf call can start or come
      back, or a goroutine can hand in its result. */
  lemma {:induction false} RunsEnd(a: Action, es: seq<Event>, cancelAt: nat)
    requires Valid(Spawn(a), es, cancelAt)
    ensures |es| + Weight(Run(Spawn(a), es, cancelAt)) == Weight(Spawn(a))
    ensures Status(Run(Spawn(a), es, cancelAt)) == None <==> CanMove(Run(Spawn(a), es, cancelAt), |es| >= cancelAt)
  {
    RunGood(a, es, cancelAt);
    if es != [] {
      var k := |es| - 1;
      RunsEnd(a, es[..k], cancelAt);
      StepWeight(Run(Spawn(a), es[..k], cancelAt), k >= cancelAt, es[k]);
    }
    var n := Run(Spawn(a), es, cancelAt);
    if Status(n) == None {
      var e := CanGoOn(a, n, |es| >= cancelAt);
    } else {
      var cancelled := |es| >= cancelAt;
      forall e ensures !Enabled(n, cancelled, e) { ReturnedIsStuck(n, cancelled, e); }
    }
  }
}
