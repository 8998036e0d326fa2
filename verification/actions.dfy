/** The post-build actions of app/specbuild/actions.go: a tree of ordered and parallel lists, whose
    leaves (exec, write, append, gobuild) run against a container. A leaf is a call that starts,
    takes its time, and returns; parallel lists run in an errgroup, whose first error cancels the
    context of the others. The semantics is a small-step machine on the tree. */
module Actions {
  import opened Options

  /** `Unknown` stands for an action with a name that is not in the table. */
  datatype Action =
    | Leaf
    | Unknown
    | Ordered(subactions: seq<Action>)
    | Parallel(subactions: seq<Action>)

  /** What an action returns: nil, an error of its own (`code` tells errors apart), or the error
      of a cancelled context. */
  datatype Result = Nil | Failed(code: nat) | Cancelled

  const UNKNOWN_ACTION := Failed(0)

  /** A tree at run time. A parallel list remembers, as its errgroup does, which results its
      goroutines have handed in, and the first error among them. */
  datatype Node =
    | Idle
    | Running
    | Returned(result: Result)
    | Rejected(done: bool)
    | InOrder(items: seq<Node>)
    | InParallel(items: seq<Node>, handedIn: seq<bool>, first: Result)

  type Path = seq<nat>

  /** A leaf's events name it by its path in the tree. */
  datatype Event =
    | Start(path: Path)
    | Finish(path: Path, result: Result)
    | Reject(path: Path)
    | HandIn(path: Path)

  function Spawn(a: Action): Node
    decreases a
  {
    match a
    case Leaf => Idle
    case Unknown => Rejected(false)
    case Ordered(subs) => InOrder(SpawnAll(subs))
    case Parallel(subs) => InParallel(SpawnAll(subs), seq(|subs|, _ => false), Nil)
  }

  function SpawnAll(subs: seq<Action>): (items: seq<Node>)
    ensures |items| == |subs|
    ensures forall i :: 0 <= i < |subs| ==> items[i] == Spawn(subs[i])
    decreases subs
  {
    if subs == [] then [] else [Spawn(subs[0])] + SpawnAll(subs[1..])
  }

  /** What performAction has returned, if it has. An ordered list returns at the first error; a
      parallel one when every goroutine has handed in. */
  function Status(n: Node): Option<Result>
    decreases n
  {
    match n
    case Idle => None
    case Running => None
    case Returned(r) => Some(r)
    case Rejected(done) => if done then Some(UNKNOWN_ACTION) else None
    case InOrder(items) => StatusInOrder(items)
    case InParallel(items, handedIn, first) =>
      if forall i :: 0 <= i < |handedIn| ==> handedIn[i] then Some(first) else None
  }

  function StatusInOrder(items: seq<Node>): Option<Result>
    decreases items
  {
    if items == [] then Some(Nil)
    else if Status(items[0]) == Some(Nil) then StatusInOrder(items[1..])
    else Status(items[0])
  }

  /** The item an ordered list is at: all before it returned nil. */
  function Current(items: seq<Node>): (i: nat)
    ensures i <= |items|
    ensures forall j :: 0 <= j < i ==> Status(items[j]) == Some(Nil)
    ensures i < |items| ==> Status(items[i]) != Some(Nil)
  {
    if items == [] || Status(items[0]) != Some(Nil) then 0 else 1 + Current(items[1..])
  }

  function Under(i: nat, e: Event): Event {
    e.(path := [i] + e.path)
  }

  function Inside(e: Event): Event
    requires e.path != []
  {
    e.(path := e.path[1..])
  }

  /** The event can happen; `cancelled` says whether the node's context is cancelled. A leaf may
      start, return nil or fail on its own under a cancelled context, but it returns the error of
      cancellation only then. */
  predicate Enabled(n: Node, cancelled: bool, e: Event)
    decreases n
  {
    match n
    case Idle => e == Start([])
    case Running => e.Finish? && e.path == [] && (e.result == Cancelled ==> cancelled)
    case Returned(_) => false
    case Rejected(done) => e == Reject([]) && !done
    case InOrder(items) =>
      e.path != [] && e.path[0] < |items| && e.path[0] == Current(items)
      && Enabled(items[e.path[0]], cancelled, Inside(e))
    case InParallel(items, handedIn, first) =>
      e.path != [] && e.path[0] < |items| && |handedIn| == |items|
      && if e == HandIn([e.path[0]]) then Status(items[e.path[0]]).Some? && !handedIn[e.path[0]]
         else Enabled(items[e.path[0]], cancelled || first != Nil, Inside(e))
  }

  function Next(n: Node, cancelled: bool, e: Event): Node
    requires Enabled(n, cancelled, e)
    decreases n
  {
    match n
    case Idle => Running
    case Running => Returned(e.result)
    case Rejected(_) => Rejected(true)
    case InOrder(items) =>
      var i := e.path[0];
      InOrder(items[i := Next(items[i], cancelled, Inside(e))])
    case InParallel(items, handedIn, first) =>
      var i := e.path[0];
      if e == HandIn([i]) then
        InParallel(items, handedIn[i := true], if first == Nil then Status(items[i]).value else first)
      else
        InParallel(items[i := Next(items[i], cancelled || first != Nil, Inside(e))], handedIn, first)
  }

  // ---------------------------------------------------------------- the units of a tree

  /** `p` leads to a unit of the tree: a leaf or an action with an unknown name. */
  predicate Unit(a: Action, p: Path)
    decreases a
  {
    match a
    case Leaf => p == []
    case Unknown => p == []
    case Ordered(subs) => p != [] && p[0] < |subs| && Unit(subs[p[0]], p[1..])
    case Parallel(subs) => p != [] && p[0] < |subs| && Unit(subs[p[0]], p[1..])
  }

  /** Some ordered list has `p` in an earlier item than `q`. */
  predicate Earlier(a: Action, p: Path, q: Path)
    requires Unit(a, p) && Unit(a, q)
    decreases a
  {
    match a
    case Leaf => false
    case Unknown => false
    case Ordered(subs) => p[0] < q[0] || (p[0] == q[0] && Earlier(subs[p[0]], p[1..], q[1..]))
    case Parallel(subs) => p[0] == q[0] && Earlier(subs[p[0]], p[1..], q[1..])
  }

  /** `n` has the shape of `a`. */
  ghost predicate Shaped(a: Action, n: Node)
    decreases a
  {
    match a
    case Leaf => n.Idle? || n.Running? || n.Returned?
    case Unknown => n.Rejected?
    case Ordered(subs) =>
      n.InOrder? && |n.items| == |subs| && forall i :: 0 <= i < |subs| ==> Shaped(subs[i], n.items[i])
    case Parallel(subs) =>
      n.InParallel? && |n.items| == |subs| == |n.handedIn| && forall i :: 0 <= i < |subs| ==>
        Shaped(subs[i], n.items[i])
  }

  /** The unit of `n` at `p`. */
  function UnitAt(a: Action, n: Node, p: Path): Node
    requires Unit(a, p) && Shaped(a, n)
    decreases a
  {
    match a
    case Leaf => n
    case Unknown => n
    case Ordered(subs) => UnitAt(subs[p[0]], n.items[p[0]], p[1..])
    case Parallel(subs) => UnitAt(subs[p[0]], n.items[p[0]], p[1..])
  }

  // ---------------------------------------------------------------- what every step keeps

  /** Nothing of `n` has happened yet. */
  ghost predicate Fresh(n: Node)
    decreases n
  {
    match n
    case Idle => true
    case Running => false
    case Returned(_) => false
    case Rejected(done) => !done
    case InOrder(items) => forall i :: 0 <= i < |items| ==> Fresh(items[i])
    case InParallel(items, handedIn, first) =>
      first == Nil && (forall i :: 0 <= i < |items| ==> Fresh(items[i])) && forall i :: 0 <= i < |handedIn| ==>
        !handedIn[i]
  }

  /** An ordered list has not touched what comes after its current item; a parallel list knows
      what was handed in, and `first` is one of the errors among it. */
  ghost predicate Good(n: Node)
    decreases n
  {
    match n
    case InOrder(items) =>
      (forall i :: 0 <= i < |items| ==> Good(items[i]))
      && forall j :: Current(items) < j < |items| ==> Fresh(items[j])
    case InParallel(items, handedIn, first) =>
      |handedIn| == |items|
      && (forall i :: 0 <= i < |items| ==> Good(items[i]))
      && (forall i :: 0 <= i < |items| && handedIn[i] ==> Status(items[i]).Some?)
      && (first == Nil ==> forall i :: 0 <= i < |items| && handedIn[i] ==> Status(items[i]) == Some(Nil))
      && (first != Nil ==> exists i :: 0 <= i < |items| && handedIn[i] && Status(items[i]) == Some(first))
    case _ => true
  }

  lemma {:induction false} SpawnGood(a: Action)
    ensures Shaped(a, Spawn(a)) && Good(Spawn(a)) && Fresh(Spawn(a))
    decreases a
  {
    match a
    case Ordered(subs) =>
      forall i | 0 <= i < |subs|
        ensures Shaped(subs[i], Spawn(subs[i])) && Good(Spawn(subs[i])) && Fresh(Spawn(subs[i]))
      {
        SpawnGood(subs[i]);
      }
    case Parallel(subs) =>
      forall i | 0 <= i < |subs|
        ensures Shaped(subs[i], Spawn(subs[i])) && Good(Spawn(subs[i])) && Fresh(Spawn(subs[i]))
      {
        SpawnGood(subs[i]);
      }
    case _ =>
  }

  /** What has returned does not move any more. */
  lemma {:induction false} ReturnedIsStuck(n: Node, cancelled: bool, e: Event)
    requires Good(n) && Status(n).Some?
    ensures !Enabled(n, cancelled, e)
    decreases n
  {
    match n
    case InOrder(items) =>
      StatusIsCurrent(items);
      if e.path != [] && e.path[0] < |items| && e.path[0] == Current(items) {
        ReturnedIsStuck(items[e.path[0]], cancelled, Inside(e));
      }
    case InParallel(items, handedIn, first) =>
      if e.path != [] && e.path[0] < |items| {
        ReturnedIsStuck(items[e.path[0]], cancelled || first != Nil, Inside(e));
      }
    case _ =>
  }

  lemma {:induction false} StatusIsCurrent(items: seq<Node>)
    ensures Status(InOrder(items)) == if Current(items) == |items| then Some(Nil) else Status(items[Current(items)])
    decreases |items|
  {
    if items != [] && Status(items[0]) == Some(Nil) {
      StatusIsCurrent(items[1..]);
    }
  }

  lemma {:induction false} CurrentAfter(items: seq<Node>, i: nat, x: Node)
    requires i < |items| && i == Current(items)
    ensures Current(items[i := x]) >= i && (Status(x) != Some(Nil) ==> Current(items[i := x]) == i)
    decreases |items|
  {
    if i > 0 {
      assert items[i := x][1..] == items[1..][i - 1 := x];
      CurrentAfter(items[1..], i - 1, x);
    }
  }

  lemma {:induction false} StepShaped(a: Action, n: Node, cancelled: bool, e: Event)
    requires Shaped(a, n) && Enabled(n, cancelled, e)
    ensures Shaped(a, Next(n, cancelled, e))
    decreases a
  {
    if n.InOrder? {
      StepShaped(a.subactions[e.path[0]], n.items[e.path[0]], cancelled, Inside(e));
    } else if n.InParallel? && e != HandIn([e.path[0]]) {
      StepShaped(a.subactions[e.path[0]], n.items[e.path[0]], cancelled || n.first != Nil, Inside(e));
    }
  }

  lemma {:induction false} StepGood(n: Node, cancelled: bool, e: Event)
    requires Good(n) && Enabled(n, cancelled, e)
    ensures Good(Next(n, cancelled, e))
    decreases n
  {
    if n.InOrder? {
      StepGood(n.items[e.path[0]], cancelled, Inside(e));
      OrderedGood(n, cancelled, e);
    } else if n.InParallel? {
      if e == HandIn([e.path[0]]) {
        HandInGood(n, cancelled, e);
      } else {
        StepGood(n.items[e.path[0]], cancelled || n.first != Nil, Inside(e));
        ParallelGood(n, cancelled, e);
      }
    }
  }

  lemma OrderedGood(n: Node, cancelled: bool, e: Event)
    requires n.InOrder? && Good(n) && Enabled(n, cancelled, e)
    requires Good(Next(n.items[e.path[0]], cancelled, Inside(e)))
    ensures Good(Next(n, cancelled, e))
  {
    CurrentAfter(n.items, e.path[0], Next(n.items[e.path[0]], cancelled, Inside(e)));
  }

  lemma HandInGood(n: Node, cancelled: bool, e: Event)
    requires n.InParallel? && Good(n) && Enabled(n, cancelled, e) && e == HandIn([e.path[0]])
    ensures Good(Next(n, cancelled, e))
  {
    var n' := Next(n, cancelled, e);
    var i := e.path[0];
    if n'.first != Nil {
      if n.first == Nil {
        assert n'.handedIn[i] && Status(n'.items[i]) == Some(n'.first);
      } else {
        var k :| 0 <= k < |n.items| && n.handedIn[k] && Status(n.items[k]) == Some(n.first);
        assert n'.handedIn[k];
      }
    }
  }

  lemma ParallelGood(n: Node, cancelled: bool, e: Event)
    requires n.InParallel? && Good(n) && Enabled(n, cancelled, e) && e != HandIn([e.path[0]])
    requires Good(Next(n.items[e.path[0]], cancelled || n.first != Nil, Inside(e)))
    ensures Good(Next(n, cancelled, e))
  {
    var n' := Next(n, cancelled, e);
    var i := e.path[0];
    if Status(n.items[i]).Some? {
      ReturnedIsStuck(n.items[i], cancelled || n.first != Nil, Inside(e));
    }
    if n.first != Nil {
      var k :| 0 <= k < |n.items| && n.handedIn[k] && Status(n.items[k]) == Some(n.first);
      assert n'.handedIn[k] && n'.items[k] == n.items[k];
    }
  }
}
