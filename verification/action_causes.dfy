/** Where the error of PerformActions (app/specbuild/actions.go) comes from, told by the moment at
    which it arose and not by its value: an errgroup keeps the error that is handed in first, so what
    comes out at the top was returned by a leaf whose context no sibling had cancelled. */
module ActionCauses {
  import opened Actions
  import opened ActionRuns
  import opened Options

  /** Of the parallel lists that the path `p` goes through, none from depth `d` on has failed: no
      sibling has cancelled the context that they pass down. */
  predicate Live(n: Node, d: nat, p: Path)
    decreases |p|
  {
    (n.InParallel? && d == 0 ==> n.first == Nil)
    && ((n.InParallel? || n.InOrder?) && p != [] && p[0] < |n.items| ==>
          Live(n.items[p[0]], if d == 0 then 0 else d - 1, p[1..]))
  }

  /** The event `e` makes the unit at `p` return `r`. */
  predicate Decides(e: Event, p: Path, r: Result) {
    e == Finish(p, r) || (e == Reject(p) && r == UNKNOWN_ACTION)
  }

  /** Whether the context of the unit at `p` is cancelled: by the caller, or by a list that failed. */
  predicate ContextCancelled(n: Node, cancelled: bool, p: Path)
    decreases |p|
  {
    if (n.InParallel? || n.InOrder?) && p != [] && p[0] < |n.items|
    then ContextCancelled(n.items[p[0]], cancelled || (n.InParallel? && n.first != Nil), p[1..])
    else cancelled
  }

  /** On a live path there is only the caller to cancel. */
  lemma {:induction false} LiveContext(n: Node, cancelled: bool, p: Path)
    requires Live(n, 0, p)
    ensures ContextCancelled(n, cancelled, p) == cancelled
    decreases |p|
  {
    if (n.InParallel? || n.InOrder?) && p != [] && p[0] < |n.items| {
      LiveContext(n.items[p[0]], cancelled || (n.InParallel? && n.first != Nil), p[1..]);
    }
  }

  /** What is known of the past: the unit at `p` returned `r` when nothing from depth `d` on had
      failed. */
  type Past = (nat, Path, Result) -> bool

  ghost function PastOf(a: Action, es: seq<Event>, cancelAt: nat): Past
    requires Valid(Spawn(a), es, cancelAt)
  {
    (d: nat, p: Path, r: Result) => DecidedLive(a, es, cancelAt, d, p, r)
  }

  ghost predicate DecidedLive(a: Action, es: seq<Event>, cancelAt: nat, d: nat, p: Path, r: Result) {
    exists k :: 0 <= k < |es| && DecidedAt(a, es, cancelAt, d, p, r, k)
  }

  ghost predicate DecidedAt(a: Action, es: seq<Event>, cancelAt: nat, d: nat, p: Path, r: Result, k: nat)
    requires k < |es|
  {
    Decides(es[k], p, r) && Valid(Spawn(a), es[..k], cancelAt) && Live(Run(Spawn(a), es[..k], cancelAt), d, p)
  }

  /** Every error in the node at `q`, be it of a unit or the one that a parallel list keeps, arose
      below when nothing from there on had failed. */
  ghost predicate Sourced(n: Node, q: Path, past: Past)
    decreases n
  {
    match n
    case Returned(r) => past(|q|, q, r)
    case Rejected(done) => done ==> past(|q|, q, UNKNOWN_ACTION)
    case InOrder(items) => forall i :: 0 <= i < |items| ==> Sourced(items[i], q + [i], past)
    case InParallel(items, _, first) =>
      (first != Nil ==> exists p :: past(|q|, q + p, first))
      && forall i :: 0 <= i < |items| ==> Sourced(items[i], q + [i], past)
    case _ => true
  }

  lemma {:induction false} FreshIsSourced(n: Node, q: Path, past: Past)
    requires Fresh(n)
    ensures Sourced(n, q, past)
    decreases n
  {
    match n
    case InOrder(items) =>
      forall i | 0 <= i < |items| ensures Sourced(items[i], q + [i], past) { FreshIsSourced(items[i], q + [i], past); }
    case InParallel(items, _, _) =>
      forall i | 0 <= i < |items| ensures Sourced(items[i], q + [i], past) { FreshIsSourced(items[i], q + [i], past); }
    case _ =>
  }

  lemma {:induction false} MoreSourced(n: Node, q: Path, past: Past, past': Past)
    requires Sourced(n, q, past) && Within(past, past')
    ensures Sourced(n, q, past')
    decreases n
  {
    match n
    case InOrder(items) =>
      forall i | 0 <= i < |items|
        ensures Sourced(items[i], q + [i], past')
      {
        MoreSourced(items[i], q + [i], past, past');
      }
    case InParallel(items, _, first) =>
      forall i | 0 <= i < |items|
        ensures Sourced(items[i], q + [i], past')
      {
        MoreSourced(items[i], q + [i], past, past');
      }
      if first != Nil {
        var p :| past(|q|, q + p, first);
        assert past'(|q|, q + p, first);
      }
    case _ =>
  }

  ghost predicate Within(past: Past, past': Past) {
    forall d, p, r {:trigger past(d, p, r)} :: past(d, p, r) ==> past'(d, p, r)
  }

  // ---------------------------------------------------------------- failures do not go away

  /** `n'` is `n` some steps later. */
  ghost predicate Later(n: Node, n': Node)
    decreases n
  {
    match n
    case InOrder(items) =>
      n'.InOrder? && |n'.items| == |items| && forall i :: 0 <= i < |items| ==> Later(items[i], n'.items[i])
    case InParallel(items, _, first) =>
      n'.InParallel? && |n'.items| == |items| && (n'.first == Nil ==> first == Nil)
      && forall i :: 0 <= i < |items| ==> Later(items[i], n'.items[i])
    case _ => true
  }

  lemma {:induction false} LaterSame(n: Node)
    ensures Later(n, n)
    decreases n
  {
    match n
    case InOrder(items) => forall i | 0 <= i < |items| ensures Later(items[i], items[i]) { LaterSame(items[i]); }
    case InParallel(items, _, _) =>
      forall i | 0 <= i < |items| ensures Later(items[i], items[i]) { LaterSame(items[i]); }
    case _ =>
  }

  lemma {:induction false} LaterStep(n: Node, n': Node, cancelled: bool, e: Event)
    requires Later(n, n') && Enabled(n', cancelled, e)
    ensures Later(n, Next(n', cancelled, e))
    decreases n
  {
    match n
    case InOrder(items) =>
      LaterStep(items[e.path[0]], n'.items[e.path[0]], cancelled, Inside(e));
    case InParallel(items, _, _) =>
      if e != HandIn([e.path[0]]) {
        LaterStep(items[e.path[0]], n'.items[e.path[0]], cancelled || n'.first != Nil, Inside(e));
      }
    case _ =>
  }

  lemma {:induction false} LaterRun(n: Node, es: seq<Event>, cancelAt: nat, k: nat)
    requires Valid(n, es, cancelAt) && k <= |es| && Valid(n, es[..k], cancelAt)
    ensures Later(Run(n, es[..k], cancelAt), Run(n, es, cancelAt))
    decreases |es|
  {
    if k == |es| {
      assert es[..k] == es;
      LaterSame(Run(n, es, cancelAt));
    } else {
      var j := |es| - 1;
      assert es[..j][..k] == es[..k];
      LaterRun(n, es[..j], cancelAt, k);
      LaterStep(Run(n, es[..k], cancelAt), Run(n, es[..j], cancelAt), j >= cancelAt, es[j]);
    }
  }

  /** The node at depth `d` on `p` is not a list that has failed. */
  predicate ClearAt(n: Node, d: nat, p: Path)
    decreases d
  {
    if d == 0 then n.InParallel? ==> n.first == Nil
    else (n.InParallel? || n.InOrder?) && p != [] && p[0] < |n.items| ==> ClearAt(n.items[p[0]], d - 1, p[1..])
  }

  lemma {:induction false} LiveFromAbove(n: Node, n': Node, d: nat, p: Path)
    requires Live(n, d + 1, p) && Later(n, n') && ClearAt(n', d, p)
    ensures Live(n, d, p)
    decreases d
  {
    if d > 0 && (n.InParallel? || n.InOrder?) && p != [] && p[0] < |n.items| {
      LiveFromAbove(n.items[p[0]], n'.items[p[0]], d - 1, p[1..]);
    }
  }

  /** What arose under a list that has not failed by now arose when it had not failed. */
  ghost predicate Lifts(past: Past, root: Node) {
    forall d: nat, p, r {:trigger past(d + 1, p, r)} :: past(d + 1, p, r) && ClearAt(root, d, p) ==> past(d, p, r)
  }

  /** `n` is at `q` below `root`. */
  predicate IsAt(root: Node, q: Path, n: Node)
    decreases |q|
  {
    if q == [] then root == n
    else (root.InParallel? || root.InOrder?) && q[0] < |root.items| && IsAt(root.items[q[0]], q[1..], n)
  }

  lemma {:induction false} ItemIsAt(root: Node, q: Path, n: Node, i: nat)
    requires IsAt(root, q, n) && (n.InParallel? || n.InOrder?) && i < |n.items|
    ensures IsAt(root, q + [i], n.items[i])
    decreases |q|
  {
    if q != [] {
      ItemIsAt(root.items[q[0]], q[1..], n, i);
      assert (q + [i])[1..] == q[1..] + [i];
    }
  }

  lemma {:induction false} ClearHere(root: Node, q: Path, n: Node, p: Path)
    requires IsAt(root, q, n) && (n.InParallel? ==> n.first == Nil)
    ensures ClearAt(root, |q|, q + p)
    decreases |q|
  {
    if q != [] {
      ClearHere(root.items[q[0]], q[1..], n, p);
      assert (q + p)[1..] == q[1..] + p;
    }
  }

  lemma Rebracket(a: Path, b: Path, c: Path)
    ensures a + b + c == a + (b + c)
  {
  }

  lemma LiftItem(root: Node, past: Past, q: Path, n: Node, i: nat, p: Path, r: Result)
    requires Lifts(past, root) && IsAt(root, q, n) && (n.InParallel? ==> n.first == Nil)
    requires past(|q| + 1, q + [i] + p, r)
    ensures past(|q|, q + ([i] + p), r)
  {
    var x := [i] + p;
    Rebracket(q, [i], p);
    ClearHere(root, q, n, x);
    assert past(|q| + 1, q + x, r);
  }

  // ---------------------------------------------------------------- steps

  /** The error that a node has returned is sourced below it. */
  lemma {:induction false} StatusIsSourced(root: Node, n: Node, q: Path, past: Past) returns (p: Path)
    requires Sourced(n, q, past) && Status(n).Some? && Status(n) != Some(Nil)
    requires Lifts(past, root) && IsAt(root, q, n)
    ensures past(|q|, q + p, Status(n).value)
    decreases n
  {
    assert q + [] == q;
    match n
    case InOrder(items) =>
      StatusIsCurrent(items);
      var i := Current(items);
      ItemIsAt(root, q, n, i);
      var p' := StatusIsSourced(root, items[i], q + [i], past);
      LiftItem(root, past, q, n, i, p', Status(n).value);
      p := [i] + p';
    case InParallel(_, _, first) => p :| past(|q|, q + p, first);
    case _ => p := [];
  }

  lemma {:induction false} StepSourced(root: Node, n: Node, q: Path, cancelled: bool, e: Event, past: Past)
    requires Sourced(n, q, past) && Enabled(n, cancelled, e) && Lifts(past, root) && IsAt(root, q, n)
    requires forall r :: Decides(e.(path := q + e.path), q + e.path, r) ==> past(|q + e.path|, q + e.path, r)
    ensures Sourced(Next(n, cancelled, e), q, past)
    decreases n
  {
    assert q + [] == q;
    match n
    case InOrder(items) =>
      var i := e.path[0];
      ItemIsAt(root, q, n, i);
      Nested(q, e.path);
      StepSourced(root, items[i], q + [i], cancelled, Inside(e), past);
    case InParallel(items, _, first) =>
      var i := e.path[0];
      ItemIsAt(root, q, n, i);
      Nested(q, e.path);
      if e != HandIn([i]) {
        StepSourced(root, items[i], q + [i], cancelled || first != Nil, Inside(e), past);
      } else if first == Nil && Status(items[i]) != Some(Nil) {
        var p := StatusIsSourced(root, items[i], q + [i], past);
        LiftItem(root, past, q, n, i, p, Status(items[i]).value);
      }
    case _ =>
  }

  // ---------------------------------------------------------------- runs

  lemma PastLifts(a: Action, es: seq<Event>, cancelAt: nat, k: nat)
    requires Valid(Spawn(a), es, cancelAt) && k <= |es| <= k + 1 && Valid(Spawn(a), es[..k], cancelAt)
    ensures Lifts(PastOf(a, es, cancelAt), Run(Spawn(a), es[..k], cancelAt))
  {
    var past, root := PastOf(a, es, cancelAt), Run(Spawn(a), es[..k], cancelAt);
    forall d: nat, p, r | past(d + 1, p, r) && ClearAt(root, d, p) ensures past(d, p, r) {
      var j :| 0 <= j < |es| && DecidedAt(a, es, cancelAt, d + 1, p, r, j);
      LiftDecision(a, es, cancelAt, k, d, p, r, j);
    }
  }

  lemma LiftDecision(a: Action, es: seq<Event>, cancelAt: nat, k: nat, d: nat, p: Path, r: Result, j: nat)
    requires Valid(Spawn(a), es, cancelAt) && j <= k <= |es| && j < |es| && Valid(Spawn(a), es[..k], cancelAt)
    requires DecidedAt(a, es, cancelAt, d + 1, p, r, j) && ClearAt(Run(Spawn(a), es[..k], cancelAt), d, p)
    ensures DecidedAt(a, es, cancelAt, d, p, r, j)
  {
    assert es[..k][..j] == es[..j];
    LaterRun(Spawn(a), es[..k], cancelAt, j);
    LiveFromAbove(Run(Spawn(a), es[..j], cancelAt), Run(Spawn(a), es[..k], cancelAt), d, p);
  }

  lemma PastGrows(a: Action, es: seq<Event>, cancelAt: nat)
    requires Valid(Spawn(a), es, cancelAt) && es != [] && Valid(Spawn(a), es[..|es| - 1], cancelAt)
    ensures Within(PastOf(a, es[..|es| - 1], cancelAt), PastOf(a, es, cancelAt))
  {
    var before := es[..|es| - 1];
    forall d, p, r | DecidedLive(a, before, cancelAt, d, p, r) ensures DecidedLive(a, es, cancelAt, d, p, r) {
      var k :| 0 <= k < |before| && DecidedAt(a, before, cancelAt, d, p, r, k);
      assert before[..k] == es[..k];
      assert DecidedAt(a, es, cancelAt, d, p, r, k);
    }
  }

  /** When a unit returns, there is no list below it. */
  lemma {:induction false} UnitIsLive(n: Node, cancelled: bool, e: Event)
    requires Enabled(n, cancelled, e) && (e.Finish? || e.Reject?)
    ensures Live(n, |e.path|, e.path)
    decreases n
  {
    match n
    case InOrder(items) => UnitIsLive(items[e.path[0]], cancelled, Inside(e));
    case InParallel(items, _, first) => UnitIsLive(items[e.path[0]], cancelled || first != Nil, Inside(e));
    case _ =>
  }

  lemma {:induction false} EventIsUnit(a: Action, n: Node, cancelled: bool, e: Event)
    requires Shaped(a, n) && Enabled(n, cancelled, e) && (e.Finish? || e.Reject?)
    ensures Unit(a, e.path)
    decreases a
  {
    match n
    case InOrder(items) => EventIsUnit(a.subactions[e.path[0]], items[e.path[0]], cancelled, Inside(e));
    case InParallel(items, _, first) =>
      EventIsUnit(a.subactions[e.path[0]], items[e.path[0]], cancelled || first != Nil, Inside(e));
    case _ =>
  }

  lemma {:induction false} RunSourced(a: Action, es: seq<Event>, cancelAt: nat)
    requires Valid(Spawn(a), es, cancelAt)
    ensures Sourced(Run(Spawn(a), es, cancelAt), [], PastOf(a, es, cancelAt))
  {
    if es == [] {
      SpawnGood(a);
      FreshIsSourced(Spawn(a), [], PastOf(a, es, cancelAt));
    } else {
      var k := |es| - 1;
      var n, past, e := Run(Spawn(a), es[..k], cancelAt), PastOf(a, es, cancelAt), es[k];
      RunSourced(a, es[..k], cancelAt);
      PastGrows(a, es, cancelAt);
      MoreSourced(n, [], PastOf(a, es[..k], cancelAt), past);
      PastLifts(a, es, cancelAt, k);
      if e.Finish? || e.Reject? { UnitIsLive(n, k >= cancelAt, e); }
      forall r | Decides(e, e.path, r) ensures past(|e.path|, e.path, r) {
        assert DecidedAt(a, es, cancelAt, |e.path|, e.path, r, k);
      }
      assert [] + e.path == e.path;
      StepSourced(n, n, [], k >= cancelAt, e, past);
    }
  }

  /** Error provenance, by the moment: the error returned for any tree is that of a unit which
      returned it at an event `k` when no parallel list above it had failed. So its context was live
      then, unless the caller had cancelled it, whatever value the error has. */
  lemma ErrorCause(a: Action, es: seq<Event>, cancelAt: nat) returns (p: Path, k: nat)
    requires Valid(Spawn(a), es, cancelAt)
    requires var s := Status(Run(Spawn(a), es, cancelAt)); s.Some? && s != Some(Nil)
    ensures k < |es| && Unit(a, p) && Decides(es[k], p, Status(Run(Spawn(a), es, cancelAt)).value)
    ensures Valid(Spawn(a), es[..k], cancelAt) && Live(Run(Spawn(a), es[..k], cancelAt), 0, p)
    ensures ContextCancelled(Run(Spawn(a), es[..k], cancelAt), k >= cancelAt, p) <==> k >= cancelAt
  {
    p := SourceOf(a, es, cancelAt);
    var r := Status(Run(Spawn(a), es, cancelAt)).value;
    k :| 0 <= k < |es| && DecidedAt(a, es, cancelAt, 0, p, r, k);
    DecisionIsUnit(a, es, cancelAt, p, r, k);
    LiveContext(Run(Spawn(a), es[..k], cancelAt), k >= cancelAt, p);
  }

  lemma SourceOf(a: Action, es: seq<Event>, cancelAt: nat) returns (p: Path)
    requires Valid(Spawn(a), es, cancelAt)
    requires var s := Status(Run(Spawn(a), es, cancelAt)); s.Some? && s != Some(Nil)
    ensures DecidedLive(a, es, cancelAt, 0, p, Status(Run(Spawn(a), es, cancelAt)).value)
  {
    var n, past := Run(Spawn(a), es, cancelAt), PastOf(a, es, cancelAt);
    RunSourced(a, es, cancelAt);
    assert es[..|es|] == es;
    PastLifts(a, es, cancelAt, |es|);
    p := StatusIsSourced(n, n, [], past);
    assert [] + p == p;
  }

  lemma DecisionIsUnit(a: Action, es: seq<Event>, cancelAt: nat, p: Path, r: Result, k: nat)
    requires Valid(Spawn(a), es, cancelAt) && k < |es| && Decides(es[k], p, r)
    ensures Unit(a, p)
  {
    ValidPrefix(Spawn(a), es, cancelAt, k + 1);
    assert es[..k + 1][..k] == es[..k];
    RunGood(a, es[..k], cancelAt);
    EventIsUnit(a, Run(Spawn(a), es[..k], cancelAt), k >= cancelAt, es[k]);
  }
}
