/** Whole runs of the takeover protocol: safety, order, and progress. */
module TakeoverRuns {
  import opened ExpireMaps
  import opened Takeover

  function Run<T(==), C(==)>(s: State<T, C>, es: seq<Event<T, C>>): State<T, C>
    requires Valid(s, es)
    decreases |es|, 1
  {
    if es == [] then s
    else Next(Run(s, es[..|es| - 1]), es[|es| - 1])
  }

  /** Every event of the run is enabled where it happens. */
  ghost predicate Valid<T, C>(s: State<T, C>, es: seq<Event<T, C>>)
    decreases |es|, 0
  {
    es == [] || (Valid(s, es[..|es| - 1]) && Enabled(Run(s, es[..|es| - 1]), es[|es| - 1]))
  }

  /** No ExpireAndRemove. */
  ghost predicate Calm<T, C>(es: seq<Event<T, C>>) {
    forall i :: 0 <= i < |es| ==> !es[i].Remove?
  }

  lemma Extend<T, C>(s: State<T, C>, es: seq<Event<T, C>>, e: Event<T, C>)
    requires Valid(s, es) && Enabled(Run(s, es), e)
    ensures Valid(s, es + [e]) && Run(s, es + [e]) == Next(Run(s, es), e)
  {
    assert (es + [e])[..|es + [e]| - 1] == es;
  }

  lemma {:induction false} InvRun<T, C>(s: State<T, C>, es: seq<Event<T, C>>)
    requires Inv(s) && Valid(s, es) && Calm(es)
    ensures Inv(Run(s, es))
  {
    if es != [] {
      InvRun(s, es[..|es| - 1]);
      InvStep(Run(s, es[..|es| - 1]), es[|es| - 1]);
    }
  }

  /** Map consistency over all runs of all operations. */
  lemma {:induction false} MapsOkRun<T, C>(s: State<T, C>, es: seq<Event<T, C>>)
    requires MapsOk(s) && Valid(s, es)
    ensures MapsOk(Run(s, es))
  {
    if es != [] {
      MapsOkRun(s, es[..|es| - 1]);
      MapsOkStep(Run(s, es[..|es| - 1]), es[|es| - 1]);
    }
  }

  // ---------------------------------------------------------------- mutual exclusion

  ghost predicate Exclusive<T, C>(s: State<T, C>) {
    forall t, u | t in s.calls && u in s.calls && s.calls[t].stage == Holding && s.calls[u].stage == Holding
      && s.calls[t].name == s.calls[u].name :: t == u
  }

  lemma InvIsExclusive<T, C>(s: State<T, C>)
    requires Inv(s)
    ensures Exclusive(s)
  {
    forall t, u | t in s.calls && u in s.calls && s.calls[t].stage == Holding && s.calls[u].stage == Holding
      && s.calls[t].name == s.calls[u].name
      ensures t == u
    {
      ReleaseAtHead(s, t);
      ReleaseAtHead(s, u);
    }
  }

  /** At most one token per name is between the return of its Acquire and its Release. */
  lemma MutualExclusion<T, C>(es: seq<Event<T, C>>)
    requires Valid(Init<T, C>(), es) && Calm(es)
    ensures Exclusive(Run(Init<T, C>(), es))
  {
    InvRun(Init<T, C>(), es);
    InvIsExclusive(Run(Init<T, C>(), es));
  }

  // ---------------------------------------------------------------- order

  /** The log of a name, read off the events alone. */
  function Trace<T(==), C>(es: seq<Event<T, C>>, n: string): Log<T> {
    if es == [] then Log([], [], []) else
    var l := Trace(es[..|es| - 1], n);
    match es[|es| - 1]
    case Acquire(t, _, name, _) => if name == n then l.(issued := l.issued + [t]) else l
    case Return(t) => if t in l.issued then l.(granted := l.granted + [t]) else l
    case Release(t) => if t in l.issued then l.(released := l.released + [t]) else l
    case _ => l
  }

  lemma {:induction false} TraceIsLog<T, C>(es: seq<Event<T, C>>, n: string)
    requires Valid(Init<T, C>(), es) && Calm(es)
    ensures LogOf(Run(Init<T, C>(), es), n) == Trace(es, n)
  {
    if es != [] {
      var before, e := es[..|es| - 1], es[|es| - 1];
      TraceIsLog(before, n);
      InvRun(Init<T, C>(), before);
      if e.Return? || e.Release? { OwnName(Run(Init<T, C>(), before), e, n); }
    }
  }

  /** The log of a name grows by the steps of the calls that it lists. */
  lemma OwnName<T, C>(s: State<T, C>, e: Event<T, C>, n: string)
    requires Inv(s) && Enabled(s, e) && (e.Return? || e.Release?)
    ensures e.t in LogOf(s, n).issued <==> s.calls[e.t].name == n
  {
    assert Chain(s, n);
    assert e.t in LogOf(s, s.calls[e.t].name).issued;
  }

  /** First come, first served: in any run, calls of one name return in the order in which they
      entered, tokens come back in that same order, and no call returns before its predecessor's
      token came back. */
  lemma FifoOrder<T, C>(es: seq<Event<T, C>>, n: string)
    requires Valid(Init<T, C>(), es) && Calm(es)
    ensures Trace(es, n).released <= Trace(es, n).granted <= Trace(es, n).issued
    ensures |Trace(es, n).granted| <= |Trace(es, n).released| + 1
  {
    TraceIsLog(es, n);
    InvRun(Init<T, C>(), es);
    assert Chain(Run(Init<T, C>(), es), n);
  }

  // ---------------------------------------------------------------- callbacks

  /** In every run, removals included, a token's entry has the name and the callback that its caller
      passed to Acquire: telling that entry to leave is telling that caller. */
  lemma {:induction false} CallbackIsKept<T, C>(es: seq<Event<T, C>>, k: nat)
    requires Valid(Init<T, C>(), es) && k < |es| && es[k].Acquire?
    ensures es[k].t in Run(Init<T, C>(), es).calls
    ensures var call := Run(Init<T, C>(), es).calls[es[k].t];
      call.name == es[k].name && call.entry == Entry(es[k].t, es[k].onExpire)
  {
    if k < |es| - 1 {
      assert es[..|es| - 1][k] == es[k];
      CallbackIsKept(es[..|es| - 1], k);
    }
  }

  /** Whatever a tick launches has been told for good. */
  lemma {:induction false} TickTells<T, C>(es: seq<Event<T, C>>, k: nat, x: Entry<T>)
    requires Valid(Init<T, C>(), es) && k < |es| && es[k].Expire? && x in es[k].batch
    ensures x in Run(Init<T, C>(), es).maps.launched
  {
    if k < |es| - 1 {
      assert es[..|es| - 1][k] == es[k];
      TickTells(es[..|es| - 1], k, x);
      LaunchedGrows(Run(Init<T, C>(), es[..|es| - 1]), es[|es| - 1]);
    }
  }

  lemma LaunchedGrows<T, C>(s: State<T, C>, e: Event<T, C>)
    requires Enabled(s, e)
    ensures s.maps.launched <= Next(s, e).maps.launched
  {
  }

  /** A tick can launch any registered entry, and nothing but registered entries. */
  lemma TickLaunches<T, C>(s: State<T, C>, x: Entry<T>)
    ensures Enabled(s, Event<T, C>.Expire([x])) <==> x in s.maps.entries.Values
    ensures Next(s, Event<T, C>.Expire([x])) == s.(maps := s.maps.(launched := s.maps.launched + [x]))
  {
    assert [x][0] == x;
  }

  // ---------------------------------------------------------------- refinement of a lock

  /** A first-in first-out lock: what the protocol amounts to for one name. */
  datatype Lock<T> = Lock(queue: seq<T>, held: bool)

  function AsLock<T>(l: Log<T>): Lock<T> {
    Lock(if |l.released| <= |l.issued| then l.issued[|l.released|..] else [], |l.granted| > |l.released|)
  }

  function LockOf<T(==), C(==)>(s: State<T, C>, n: string): Lock<T> {
    AsLock(LogOf(s, n))
  }

  predicate Admits<T(==), C>(k: Lock<T>, e: Event<T, C>) {
    match e
    case Return(t) => k.queue != [] && k.queue[0] == t && !k.held
    case Release(t) => k.queue != [] && k.queue[0] == t && k.held
    case _ => true
  }

  function Moved<T, C>(k: Lock<T>, e: Event<T, C>): Lock<T>
    requires e.Release? ==> k.queue != []
  {
    match e
    case Acquire(t, _, _, _) => k.(queue := k.queue + [t])
    case Return(_) => k.(held := true)
    case Release(_) => Lock(k.queue[1..], false)
    case _ => k
  }

  predicate Concerns<T(==), C(==)>(s: State<T, C>, e: Event<T, C>, n: string) {
    match e
    case Acquire(_, _, name, _) => name == n
    case Return(t) => t in s.calls && s.calls[t].name == n
    case Release(t) => t in s.calls && s.calls[t].name == n
    case _ => false
  }

  /** The protocol refines the lock, in both directions: a call returns exactly when the lock
      would admit it, a release is possible exactly for the lock's holder ... */
  lemma EnabledIffAdmitted<T, C>(s: State<T, C>, e: Event<T, C>, n: string)
    requires Inv(s) && (e.Return? || e.Release?) && Concerns(s, e, n)
    ensures Enabled(s, e) <==> Admits(LockOf(s, n), e)
  {
    assert Chain(s, n);
    ReturnAtHead(s, e.t);
    ReleaseAtHead(s, e.t);
  }

  /** ... and each step moves the lock of its own name, and no other. */
  lemma RefinesLock<T, C>(s: State<T, C>, e: Event<T, C>, n: string)
    requires Inv(s) && !e.Remove? && Enabled(s, e)
    ensures !Concerns(s, e, n) ==> LockOf(Next(s, e), n) == LockOf(s, n)
    ensures Concerns(s, e, n) ==> Admits(LockOf(s, n), e) && LockOf(Next(s, e), n) == Moved(LockOf(s, n), e)
  {
    if Concerns(s, e, n) {
      assert Chain(s, n);
      if e.Return? || e.Release? { EnabledIffAdmitted(s, e, n); }
      LogMoves(LogOf(s, n), e.t);
    }
  }

  lemma LogMoves<T>(l: Log<T>, t: T)
    requires Prefixes(l)
    ensures AsLock(l.(issued := l.issued + [t])) == AsLock(l).(queue := AsLock(l).queue + [t])
    ensures |l.granted| == |l.released| ==> AsLock(l.(granted := l.granted + [t])) == AsLock(l).(held := true)
    ensures |l.granted| > |l.released| ==> AsLock(l.(released := l.released + [t])) == Lock(AsLock(l).queue[1..], false)
  {
    assert (l.issued + [t])[|l.released|..] == l.issued[|l.released|..] + [t];
  }

  // ---------------------------------------------------------------- progress in turn

  /** The returns and releases of one name in a run that starts in `s`. */
  function Moves<T(==), C(==)>(s: State<T, C>, es: seq<Event<T, C>>, n: string): nat
    requires Valid(s, es)
  {
    if es == [] then 0 else
    var e := es[|es| - 1];
    Moves(s, es[..|es| - 1], n)
    + if (e.Return? || e.Release?) && Run(s, es[..|es| - 1]).calls[e.t].name == n then 1 else 0
  }

  /** Where a call stands in its name's order of entry. */
  function Position<T(==)>(q: seq<T>, t: T): (p: nat)
    requires t in q
    ensures p < |q| && q[p] == t
  {
    if q[0] == t then 0 else 1 + Position(q[1..], t)
  }

  /** How many returns and releases of its name a waiting call still has to see, its own return
      included. Newcomers do not change it. */
  function Rank<T(==), C(==)>(s: State<T, C>, t: T): int
    requires t in s.calls && t in LogOf(s, s.calls[t].name).issued
  {
    var l := LogOf(s, s.calls[t].name);
    2 * Position(l.issued, t) + 1 - |l.released| - |l.granted|
  }

  lemma {:induction false} MovesCount<T, C>(s: State<T, C>, es: seq<Event<T, C>>, n: string)
    requires Valid(s, es)
    ensures |LogOf(Run(s, es), n).released| + |LogOf(Run(s, es), n).granted|
            == |LogOf(s, n).released| + |LogOf(s, n).granted| + Moves(s, es, n)
    ensures LogOf(s, n).issued <= LogOf(Run(s, es), n).issued
    ensures forall t :: t in s.calls ==> t in Run(s, es).calls && Run(s, es).calls[t].name == s.calls[t].name
  {
    if es != [] {
      MovesCount(s, es[..|es| - 1], n);
    }
  }

  /** Whether a call still waits can be told from how far its name has moved. */
  lemma WaitingByCount<T, C>(s: State<T, C>, n: string, p: nat)
    requires Inv(s) && p < |LogOf(s, n).issued|
    ensures var l := LogOf(s, n); var t := l.issued[p];
      t in s.calls && s.calls[t].name == n
      && (s.calls[t].stage == Waiting <==> |l.released| + |l.granted| <= 2 * p)
  {
    assert Chain(s, n);
  }

  /** Where the chain is whole (TakeoverProgress covers all other runs) the count is exact: a
      waiting call has been served exactly once its name has seen `Rank` returns and releases, no
      matter how many others have queued up behind it. */
  lemma ServedIff<T, C>(s: State<T, C>, es: seq<Event<T, C>>, t: T)
    requires Inv(s) && Valid(s, es) && Calm(es)
    requires t in s.calls && s.calls[t].stage == Waiting
    ensures Inv(Run(s, es)) && t in Run(s, es).calls && Run(s, es).calls[t].name == s.calls[t].name
    ensures Run(s, es).calls[t].stage != Waiting <==> Moves(s, es, s.calls[t].name) >= Rank(s, t)
  {
    var n := s.calls[t].name;
    MovesCount(s, es, n);
    InvRun(s, es);
    var p := Position(LogOf(s, n).issued, t);
    assert LogOf(Run(s, es), n).issued[p] == t;
    WaitingByCount(Run(s, es), n, p);
  }

  /** ... and as long as a call waits, its name can move: so nothing is stuck while holders keep
      releasing, and `Rank` says how many moves it takes. */
  lemma NextInTurn<T, C>(s: State<T, C>, t: T) returns (e: Event<T, C>)
    requires Inv(s) && t in s.calls && s.calls[t].stage == Waiting
    ensures Rank(s, t) > 0
    ensures (e.Return? || e.Release?) && e.t in s.calls && s.calls[e.t].name == s.calls[t].name && Enabled(s, e)
  {
    var n := s.calls[t].name;
    var l := LogOf(s, n);
    assert Chain(s, n);
    var p := Position(l.issued, t);
    var head := l.issued[|l.released|];
    e := if |l.granted| > |l.released| then Event.Release(head) else Event.Return(head);
    ReturnAtHead(s, head);
  }

  /** The schedule that serves `t`: exactly `Rank` moves of its own name. */
  lemma Serve<T, C>(s: State<T, C>, t: T) returns (es: seq<Event<T, C>>)
    requires Inv(s) && t in s.calls && s.calls[t].stage == Waiting
    ensures Valid(s, es) && Calm(es) && |es| == Rank(s, t) == Moves(s, es, s.calls[t].name)
    ensures t in Run(s, es).calls && Run(s, es).calls[t].stage != Waiting
  {
    var _ := NextInTurn(s, t);
    es := ServeSteps(s, t, Rank(s, t));
    ServedIff(s, es, t);
  }

  lemma {:induction false} ServeSteps<T, C>(s: State<T, C>, t: T, k: nat) returns (es: seq<Event<T, C>>)
    requires Inv(s) && t in s.calls && s.calls[t].stage == Waiting && k <= Rank(s, t)
    ensures Valid(s, es) && Calm(es) && |es| == k == Moves(s, es, s.calls[t].name)
    decreases k
  {
    if k == 0 { return []; }
    var before := ServeSteps(s, t, k - 1);
    ServedIff(s, before, t);
    var e := NextInTurn(Run(s, before), t);
    Extend(s, before, e);
    es := before + [e];
    assert es[..|es| - 1] == before;
  }

  // ---------------------------------------------------------------- ExpireAndRemove

  ghost predicate ExclusiveEver<T(!new), C(!new)>(s: State<T, C>) {
    forall es :: Valid(s, es) && Calm(es) ==> Exclusive(Run(s, es))
  }

  /** Where a name has a holder but no entry, a newcomer does not wait. */
  lemma NewcomerWalksIn<T, C>(s0: State<T, C>, es: seq<Event<T, C>>, n: string, head: T, t: T, c: C)
    requires Valid(s0, es)
    requires var s := Run(s0, es);
      && n !in s.maps.entries && t !in s.calls && c !in s.made
      && head in s.calls && s.calls[head].name == n && s.calls[head].stage == Holding
    ensures var all := es + [Event.Acquire(t, c, n, 0)] + [Event.Return(t)];
      Valid(s0, all) && !Exclusive(Run(s0, all))
  {
    var a := Event.Acquire(t, c, n, 0);
    Extend(s0, es, a);
    Extend(s0, es + [a], Event.Return(t));
    var s' := Run(s0, es + [a] + [Event.Return(t)]);
    assert s'.calls[head].stage == Holding && s'.calls[t].stage == Holding && head != t;
  }

  /** A registered name has a holder, or one that can become it now. */
  lemma Holder<T, C>(s: State<T, C>, n: string) returns (head: T)
    requires Inv(s) && n in s.maps.entries
    ensures head in s.calls && s.calls[head].name == n
    ensures s.calls[head].stage == Holding || Enabled(s, Event<T, C>.Return(head))
  {
    assert Chain(s, n);
    head := LogOf(s, n).issued[|LogOf(s, n).released|];
    ReturnAtHead(s, head);
    ReleaseAtHead(s, head);
  }

  lemma SecondHolder<T, C>(s: State<T, C>, n: string, head: T, t: T, c: C) returns (es: seq<Event<T, C>>)
    requires n !in s.maps.entries && t !in s.calls && c !in s.made
    requires head in s.calls && s.calls[head].name == n
    requires s.calls[head].stage == Holding || Enabled(s, Event<T, C>.Return(head))
    ensures Valid(s, es) && Calm(es) && !Exclusive(Run(s, es))
  {
    es := [];
    if s.calls[head].stage != Holding {
      Extend(s, [], Event.Return(head));
      es := [] + [Event.Return(head)];
    }
    NewcomerWalksIn(s, es, n, head, t, c);
    es := es + [Event.Acquire(t, c, n, 0)] + [Event.Return(t)];
  }

  /** Removing a held name admits a second holder: the schedule. */
  lemma RemoveAdmitsSecond<T, C>(s: State<T, C>, n: string, t: T, c: C) returns (es: seq<Event<T, C>>)
    requires Inv(s) && n in s.maps.entries && t !in s.calls && c !in s.made
    ensures var s' := Next(s, Event<T, C>.Remove(n));
      Valid(s', es) && Calm(es) && !Exclusive(Run(s', es))
  {
    var head := Holder(s, n);
    es := SecondHolder(Next(s, Event<T, C>.Remove(n)), n, head, t, c);
  }

  /** ExpireAndRemove keeps mutual exclusion, over all continuations without a further one, if and
      only if the name has no entry, in which case it does nothing. (`t` and `c` stand for any
      identities not used so far.) */
  lemma RemoveKeepsExclusionIff<T(!new), C(!new)>(s: State<T, C>, n: string, t: T, c: C)
    requires Inv(s) && t !in s.calls && c !in s.made
    ensures ExclusiveEver(Next(s, Event<T, C>.Remove(n))) <==> n !in s.maps.entries
  {
    var s' := Next(s, Event<T, C>.Remove(n));
    if n in s.maps.entries {
      var es := RemoveAdmitsSecond(s, n, t, c);
    } else {
      assert s' == s;
      forall es | Valid(s, es) && Calm(es) ensures Exclusive(Run(s, es)) {
        InvRun(s, es);
        InvIsExclusive(Run(s, es));
      }
    }
  }
}
