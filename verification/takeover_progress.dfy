/** Progress of the takeover protocol over all runs of all operations. ExpireAndRemove breaks the
    chain of a name into several, but whoever waits still has somebody ahead of it that can move;
    so the callers drain away, as the shutdown of the server expects (app/app.go). */
module TakeoverProgress {
  import opened ExpireMaps
  import opened Options
  import opened Takeover
  import opened TakeoverRuns

  // ---------------------------------------------------------------- what every run keeps

  /** Each call is listed in the log of its own name, and nothing else is. */
  ghost predicate Logged<T, C>(s: State<T, C>) {
    && (forall t :: t in s.calls ==> t in LogOf(s, s.calls[t].name).issued)
    && (forall n, t :: t in LogOf(s, n).issued ==> t in s.calls && s.calls[t].name == n)
  }

  /** `u` entered Acquire before `t`, for the same name. */
  ghost predicate Older<T, C>(s: State<T, C>, u: T, t: T)
    requires Logged(s)
  {
    && u in s.calls && t in s.calls && s.calls[u].name == s.calls[t].name
    && Position(LogOf(s, s.calls[t].name).issued, u) < Position(LogOf(s, s.calls[t].name).issued, t)
  }

  ghost predicate Unreleased<T, C>(s: State<T, C>, t: T) {
    t in s.calls && s.calls[t].stage != Done
  }

  /** Its onExpire has been launched. */
  ghost predicate Told<T, C>(s: State<T, C>, t: T)
    requires t in s.calls
  {
    s.calls[t].entry in s.maps.launched
  }

  ghost predicate EntriesOk<T, C>(s: State<T, C>) {
    forall n :: n in s.maps.entries ==>
      Unreleased(s, s.maps.entries[n].token)
      && s.calls[s.maps.entries[n].token].name == n && s.calls[s.maps.entries[n].token].entry == s.maps.entries[n]
  }

  /** Somebody who has been told to go and has not gone holds up those behind. */
  ghost predicate BlockersHeld<T, C>(s: State<T, C>) {
    forall t :: t in s.maps.blockers ==> Unreleased(s, t) && Told(s, t)
  }

  /** `t` waits for the channel of `u`. */
  ghost predicate WaitsFor<T, C>(s: State<T, C>, t: T, u: T)
    requires Logged(s)
  {
    Older(s, u, t) && u in s.maps.blockers && s.calls[t].blocker == Some(s.maps.blockers[u])
  }

  ghost predicate WaitsOk<T, C>(s: State<T, C>)
    requires Logged(s)
  {
    forall t :: t in s.calls && Blocked(s, t) ==>
      s.calls[t].stage == Waiting && exists u :: u in s.maps.blockers && WaitsFor(s, t, u)
  }

  ghost predicate AllTold<T, C>(s: State<T, C>) {
    forall t :: t in s.calls && Unreleased(s, t) ==> t in s.maps.tokens || Told(s, t)
  }

  ghost predicate Live<T, C>(s: State<T, C>) {
    MapsOk(s) && Logged(s) && EntriesOk(s) && BlockersHeld(s) && WaitsOk(s) && AllTold(s)
  }

  // ---------------------------------------------------------------- steps

  lemma {:induction false} PositionAppend<T>(q: seq<T>, x: T, t: T)
    requires t in q
    ensures Position(q + [x], t) == Position(q, t)
    decreases |q|
  {
    if q[0] != t {
      assert (q + [x])[1..] == q[1..] + [x];
      PositionAppend(q[1..], x, t);
    }
  }

  lemma {:induction false} PositionLast<T>(q: seq<T>, x: T)
    requires x !in q
    ensures Position(q + [x], x) == |q|
    decreases |q|
  {
    if q != [] {
      assert (q + [x])[1..] == q[1..] + [x];
      PositionLast(q[1..], x);
    }
  }

  lemma LoggedStep<T, C>(s: State<T, C>, e: Event<T, C>)
    requires Logged(s) && Enabled(s, e)
    ensures Logged(Next(s, e))
  {
    var s' := Next(s, e);
    forall n, t | t in LogOf(s', n).issued ensures t in s'.calls && s'.calls[t].name == n {
      IssuedStep(s, e, n);
    }
    forall t | t in s'.calls ensures t in LogOf(s', s'.calls[t].name).issued {
      IssuedStep(s, e, s'.calls[t].name);
      if t in s.calls { assert t in LogOf(s, s.calls[t].name).issued; }
    }
  }

  lemma IssuedStep<T, C>(s: State<T, C>, e: Event<T, C>, n: string)
    requires Enabled(s, e)
    ensures LogOf(Next(s, e), n).issued == LogOf(s, n).issued + if e.Acquire? && e.name == n then [e.t] else []
  {
  }

  /** Steps keep the order of entry. */
  lemma OlderStep<T, C>(s: State<T, C>, e: Event<T, C>, u: T, t: T)
    requires Logged(s) && Enabled(s, e) && Logged(Next(s, e)) && u in s.calls && t in s.calls
    ensures Older(Next(s, e), u, t) <==> Older(s, u, t)
  {
    if e.Acquire? && s.calls[u].name == s.calls[t].name == e.name {
      PositionAppend(LogOf(s, e.name).issued, e.t, u);
      PositionAppend(LogOf(s, e.name).issued, e.t, t);
    }
  }

  lemma NewcomerIsLast<T, C>(s: State<T, C>, e: Event<T, C>, u: T)
    requires Logged(s) && Enabled(s, e) && e.Acquire? && Logged(Next(s, e)) && u in s.calls
    ensures Older(Next(s, e), u, e.t) <==> s.calls[u].name == e.name
    ensures !Older(Next(s, e), e.t, u)
  {
    if s.calls[u].name == e.name {
      PositionAppend(LogOf(s, e.name).issued, e.t, u);
      PositionLast(LogOf(s, e.name).issued, e.t);
    }
  }

  /** Who is blocked after a step was blocked before, behind the same call, unless it is new. */
  lemma WaitsKept<T, C>(s: State<T, C>, e: Event<T, C>, t: T)
    requires Live(s) && Enabled(s, e) && Logged(Next(s, e)) && t in s.calls && Blocked(Next(s, e), t)
    ensures Next(s, e).calls[t].stage == Waiting
    ensures exists u :: u in Next(s, e).maps.blockers && WaitsFor(Next(s, e), t, u)
  {
    var s' := Next(s, e);
    ClosedGrows(s, e);
    var u :| u in s.maps.blockers && WaitsFor(s, t, u);
    StillBehind(s, e, t, u);
    if e.Release? || e.Return? { assert e.t != t; }
  }

  lemma StillBehind<T, C>(s: State<T, C>, e: Event<T, C>, t: T, u: T)
    requires Live(s) && Enabled(s, e) && Logged(Next(s, e)) && t in s.calls && u in s.maps.blockers && WaitsFor(s, t, u)
    requires s.maps.blockers[u] !in Next(s, e).maps.closed
    ensures u in Next(s, e).maps.blockers && WaitsFor(Next(s, e), t, u)
  {
    ClosedGrows(s, e);
    OlderStep(s, e, u, t);
    BlockerStays(s, e, u);
  }

  lemma ClosedGrows<T, C>(s: State<T, C>, e: Event<T, C>)
    requires Enabled(s, e)
    ensures s.maps.closed <= Next(s, e).maps.closed
    ensures forall t :: t in s.calls ==> t in Next(s, e).calls && Next(s, e).calls[t].blocker == s.calls[t].blocker
  {
  }

  /** A blocker goes only when it is closed. */
  lemma BlockerStays<T, C>(s: State<T, C>, e: Event<T, C>, u: T)
    requires Live(s) && Enabled(s, e) && u in s.maps.blockers && s.maps.blockers[u] !in Next(s, e).maps.closed
    ensures u in Next(s, e).maps.blockers && Next(s, e).maps.blockers[u] == s.maps.blockers[u]
  {
    if e.Acquire? && e.name in s.maps.entries {
      assert s.maps.entries[e.name].token in s.maps.tokens;
    }
  }

  lemma AcquireLive<T, C>(s: State<T, C>, e: Event<T, C>)
    requires Live(s) && e.Acquire? && Enabled(s, e)
    ensures Live(Next(s, e))
  {
    var s' := Next(s, e);
    MapsOkStep(s, e);
    LoggedStep(s, e);
    AcquireEntries(s, e);
    forall t | t in s'.calls && Blocked(s', t)
      ensures s'.calls[t].stage == Waiting && exists u :: u in s'.maps.blockers && WaitsFor(s', t, u)
    {
      if t in s.calls {
        WaitsKept(s, e, t);
      } else {
        NewcomerWaits(s, e);
      }
    }
  }

  lemma NewcomerWaits<T, C>(s: State<T, C>, e: Event<T, C>)
    requires Live(s) && e.Acquire? && Enabled(s, e) && Logged(Next(s, e)) && e.name in s.maps.entries
    ensures s.maps.entries[e.name].token in Next(s, e).maps.blockers
    ensures WaitsFor(Next(s, e), e.t, s.maps.entries[e.name].token)
  {
    NewcomerIsLast(s, e, s.maps.entries[e.name].token);
  }

  lemma AcquireEntries<T, C>(s: State<T, C>, e: Event<T, C>)
    requires Live(s) && e.Acquire? && Enabled(s, e)
    ensures EntriesOk(Next(s, e)) && BlockersHeld(Next(s, e)) && AllTold(Next(s, e))
  {
    CallsKept(s, e);
    AcquireHeld(s, e);
    AcquireTold(s, e);
  }

  /** A step of one call does not touch the others, and nobody is untold. */
  lemma CallsKept<T, C>(s: State<T, C>, e: Event<T, C>)
    requires Enabled(s, e)
    ensures forall t :: t in s.calls ==> t in Next(s, e).calls
    ensures forall t :: t in s.calls && !(e.Release? && e.t == t) && Unreleased(s, t) ==> Unreleased(Next(s, e), t)
    ensures forall t :: t in s.calls && Unreleased(Next(s, e), t) ==> Unreleased(s, t)
    ensures forall t :: t in s.calls ==>
      Next(s, e).calls[t].name == s.calls[t].name && Next(s, e).calls[t].entry == s.calls[t].entry
    ensures forall x :: x in s.maps.launched ==> x in Next(s, e).maps.launched
  {
  }

  lemma AcquireHeld<T, C>(s: State<T, C>, e: Event<T, C>)
    requires Live(s) && e.Acquire? && Enabled(s, e)
    ensures BlockersHeld(Next(s, e))
  {
    CallsKept(s, e);
    var s' := Next(s, e);
    forall t | t in s'.maps.blockers ensures Unreleased(s', t) && Told(s', t) {
      assert t in s.maps.blockers || s.maps.entries[e.name].token == t;
    }
  }

  lemma AcquireTold<T, C>(s: State<T, C>, e: Event<T, C>)
    requires Live(s) && e.Acquire? && Enabled(s, e)
    ensures AllTold(Next(s, e))
  {
    CallsKept(s, e);
    var s' := Next(s, e);
    forall t | t in s'.calls && Unreleased(s', t) ensures t in s'.maps.tokens || Told(s', t) {
      if t in s.maps.tokens && t !in s'.maps.tokens {
        assert s.maps.entries[e.name].token == t;
      }
    }
  }

  lemma ReleaseLive<T, C>(s: State<T, C>, e: Event<T, C>)
    requires Live(s) && e.Release? && Enabled(s, e)
    ensures Live(Next(s, e))
  {
    var s' := Next(s, e);
    MapsOkStep(s, e);
    LoggedStep(s, e);
    ReleaseKeepsConsistent(s.maps, e.t);
    ReleaseEntries(s, s', e.t);
    forall t | t in s'.calls && Blocked(s', t)
      ensures s'.calls[t].stage == Waiting && exists u :: u in s'.maps.blockers && WaitsFor(s', t, u)
    {
      WaitsKept(s, e, t);
    }
  }

  lemma ReleaseEntries<T, C>(s: State<T, C>, s': State<T, C>, t: T)
    requires Live(s) && t in s.calls && s'.calls == s.calls[t := s.calls[t].(stage := Done)]
      && s'.maps == Released(s.maps, t)
    requires forall n :: n in s'.maps.entries ==>
      n in s.maps.entries && s'.maps.entries[n] == s.maps.entries[n] && s.maps.entries[n].token != t
    ensures EntriesOk(s') && BlockersHeld(s') && AllTold(s')
  {
    forall u | u in s'.calls && Unreleased(s', u) ensures u in s'.maps.tokens || Told(s', u) {
      assert Unreleased(s, u);
    }
    forall n | n in s'.maps.entries ensures Unreleased(s', s'.maps.entries[n].token) {
      assert Unreleased(s, s.maps.entries[n].token);
    }
  }

  lemma OtherLive<T, C>(s: State<T, C>, e: Event<T, C>)
    requires Live(s) && (e.Return? || e.Expire? || e.Remove?) && Enabled(s, e)
    ensures Live(Next(s, e))
  {
    var s' := Next(s, e);
    MapsOkStep(s, e);
    LoggedStep(s, e);
    OtherEntries(s, e);
    forall t | t in s'.calls && Blocked(s', t)
      ensures s'.calls[t].stage == Waiting && exists u :: u in s'.maps.blockers && WaitsFor(s', t, u)
    {
      WaitsKept(s, e, t);
    }
  }

  lemma OtherEntries<T, C>(s: State<T, C>, e: Event<T, C>)
    requires Live(s) && (e.Return? || e.Expire? || e.Remove?) && Enabled(s, e)
    ensures EntriesOk(Next(s, e)) && BlockersHeld(Next(s, e)) && AllTold(Next(s, e))
  {
    OtherHeld(s, e);
    OtherTold(s, e);
  }

  lemma OtherHeld<T, C>(s: State<T, C>, e: Event<T, C>)
    requires Live(s) && (e.Return? || e.Expire? || e.Remove?) && Enabled(s, e)
    ensures EntriesOk(Next(s, e)) && BlockersHeld(Next(s, e))
  {
    CallsKept(s, e);
    OtherMaps(s, e);
  }

  lemma OtherMaps<T, C>(s: State<T, C>, e: Event<T, C>)
    requires (e.Return? || e.Expire? || e.Remove?) && Enabled(s, e)
    ensures Next(s, e).maps.blockers == s.maps.blockers
    ensures forall n :: n in Next(s, e).maps.entries ==>
      n in s.maps.entries && Next(s, e).maps.entries[n] == s.maps.entries[n]
  {
  }

  lemma OtherTold<T, C>(s: State<T, C>, e: Event<T, C>)
    requires Live(s) && (e.Return? || e.Expire? || e.Remove?) && Enabled(s, e)
    ensures AllTold(Next(s, e))
  {
    var s' := Next(s, e);
    CallsKept(s, e);
    forall t | t in s'.calls && Unreleased(s', t) ensures t in s'.maps.tokens || Told(s', t) {
      if t in s.maps.tokens { RemovedIsTold(s, e, t); }
    }
  }

  lemma RemovedIsTold<T, C>(s: State<T, C>, e: Event<T, C>, t: T)
    requires Live(s) && (e.Return? || e.Expire? || e.Remove?) && Enabled(s, e) && t in s.maps.tokens
    ensures t in Next(s, e).calls && (t in Next(s, e).maps.tokens || Told(Next(s, e), t))
  {
  }

  lemma LiveStep<T, C>(s: State<T, C>, e: Event<T, C>)
    requires Live(s) && Enabled(s, e)
    ensures Live(Next(s, e))
  {
    match e
    case Acquire(_, _, _, _) => AcquireLive(s, e);
    case Release(_) => ReleaseLive(s, e);
    case _ => OtherLive(s, e);
  }

  /** ExpireAndRemove included. */
  lemma {:induction false} LiveRun<T, C>(s: State<T, C>, es: seq<Event<T, C>>)
    requires Live(s) && Valid(s, es)
    ensures Live(Run(s, es))
  {
    if es != [] {
      LiveRun(s, es[..|es| - 1]);
      LiveStep(Run(s, es[..|es| - 1]), es[|es| - 1]);
    }
  }

  // ---------------------------------------------------------------- no lost wake-up

  /** Who is ahead of a blocked call and not blocked itself. */
  lemma {:induction false} HeadOf<T, C>(s: State<T, C>, t: T) returns (head: T)
    requires Live(s) && t in s.calls && Blocked(s, t)
    ensures Older(s, head, t) && Unreleased(s, head) && Told(s, head) && !Blocked(s, head)
    ensures Enabled(s, Event<T, C>.Return(head)) || Enabled(s, Event<T, C>.Release(head))
    decreases Position(LogOf(s, s.calls[t].name).issued, t)
  {
    var u :| u in s.maps.blockers && WaitsFor(s, t, u);
    if Blocked(s, u) {
      head := HeadOf(s, u);
    } else {
      head := u;
    }
  }

  /** No lost wake-up, in any run of all operations: whoever is blocked waits behind an older call
      of the same name that has been told to leave, has not left, is not blocked itself, and can
      take its next step. */
  lemma NoLostWakeup<T, C>(es: seq<Event<T, C>>, t: T) returns (head: T)
    requires Valid(Init<T, C>(), es)
    requires var s := Run(Init<T, C>(), es); t in s.calls && Blocked(s, t)
    ensures Live(Run(Init<T, C>(), es))
    ensures var s := Run(Init<T, C>(), es);
      && Older(s, head, t) && Unreleased(s, head) && Told(s, head) && !Blocked(s, head)
      && (Enabled(s, Event<T, C>.Return(head)) || Enabled(s, Event<T, C>.Release(head)))
  {
    LiveRun(Init<T, C>(), es);
    head := HeadOf(Run(Init<T, C>(), es), t);
  }

  /** No deadlock, in any run of all operations: as long as a call waits, it can return, or a call
      of the same name that entered before it can return or be released. */
  lemma WaitingCanMove<T, C>(es: seq<Event<T, C>>, t: T) returns (e: Event<T, C>)
    requires Valid(Init<T, C>(), es)
    requires var s := Run(Init<T, C>(), es); t in s.calls && s.calls[t].stage == Waiting
    ensures Live(Run(Init<T, C>(), es))
    ensures var s := Run(Init<T, C>(), es);
      && Enabled(s, e) && (e.Return? || e.Release?)
      && (e == Event.Return(t) || Older(s, e.t, t))
  {
    LiveRun(Init<T, C>(), es);
    var s := Run(Init<T, C>(), es);
    if Blocked(s, t) {
      var head := HeadOf(s, t);
      e := if s.calls[head].stage == Waiting then Event.Return(head) else Event.Release(head);
    } else {
      e := Event.Return(t);
    }
  }

  /** After a shutdown's ExpireAndRemoveAll, or whenever no name is registered, everybody who has
      not released has been told to leave. */
  lemma EmptyIsTold<T, C>(s: State<T, C>, t: T)
    requires Live(s) && s.maps.entries == map[] && Unreleased(s, t)
    ensures Told(s, t)
  {
    RemoveAllKeepsConsistent(s.maps, []);
    assert t !in s.maps.tokens;
  }

  // ---------------------------------------------------------------- what is still to be done

  function InStage<T(==), C(==)>(s: State<T, C>, a: set<T>, stage: Stage): set<T> {
    set t | t in a && t in s.calls && s.calls[t].stage == stage
  }

  /** The returns and releases that the calls in `a` have before them. */
  function Work<T(==), C(==)>(s: State<T, C>, a: set<T>): nat {
    2 * |InStage(s, a, Waiting)| + |InStage(s, a, Holding)|
  }

  predicate IsMove<T(==), C>(e: Event<T, C>, a: set<T>) {
    (e.Return? || e.Release?) && e.t in a
  }

  /** Every return or release of one of them takes one off, and nothing else changes it: not the
      ticks, not a removal, not a newcomer. */
  lemma WorkStep<T, C>(s: State<T, C>, e: Event<T, C>, a: set<T>)
    requires Enabled(s, e) && a <= s.calls.Keys
    ensures Work(Next(s, e), a) == Work(s, a) - if IsMove(e, a) then 1 else 0
  {
    StagesStep(s, e);
    if !IsMove(e, a) {
      WorkSame(s, Next(s, e), a);
    } else {
      WorkMoved(s, Next(s, e), a, e.t);
    }
  }

  lemma WorkSame<T, C>(s: State<T, C>, s': State<T, C>, a: set<T>)
    requires a <= s.calls.Keys && a <= s'.calls.Keys
    requires forall t :: t in a ==> s'.calls[t].stage == s.calls[t].stage
    ensures Work(s', a) == Work(s, a)
  {
    assert InStage(s', a, Waiting) == InStage(s, a, Waiting);
    assert InStage(s', a, Holding) == InStage(s, a, Holding);
  }

  lemma WorkMoved<T, C>(s: State<T, C>, s': State<T, C>, a: set<T>, t: T)
    requires a <= s.calls.Keys && a <= s'.calls.Keys && t in a
    requires forall u :: u in a && u != t ==> s'.calls[u].stage == s.calls[u].stage
    requires (s.calls[t].stage == Waiting && s'.calls[t].stage == Holding)
      || (s.calls[t].stage == Holding && s'.calls[t].stage == Done)
    ensures Work(s', a) == Work(s, a) - 1
  {
    if s.calls[t].stage == Waiting {
      assert InStage(s', a, Waiting) == InStage(s, a, Waiting) - {t};
      assert InStage(s', a, Holding) == InStage(s, a, Holding) + {t};
    } else {
      assert InStage(s', a, Waiting) == InStage(s, a, Waiting);
      assert InStage(s', a, Holding) == InStage(s, a, Holding) - {t};
    }
  }

  lemma StagesStep<T, C>(s: State<T, C>, e: Event<T, C>)
    requires Enabled(s, e)
    ensures forall t :: t in s.calls ==> t in Next(s, e).calls
    ensures forall t :: t in s.calls && !(e.Return? && e.t == t) && !(e.Release? && e.t == t) ==>
      Next(s, e).calls[t].stage == s.calls[t].stage
    ensures e.Return? ==> s.calls[e.t].stage == Waiting && Next(s, e).calls[e.t].stage == Holding
    ensures e.Release? ==> s.calls[e.t].stage == Holding && Next(s, e).calls[e.t].stage == Done
  {
  }

  function MovesIn<T(==), C>(es: seq<Event<T, C>>, a: set<T>): nat {
    if es == [] then 0 else MovesIn(es[..|es| - 1], a) + if IsMove(es[|es| - 1], a) then 1 else 0
  }

  lemma {:induction false} WorkRun<T, C>(s: State<T, C>, es: seq<Event<T, C>>, a: set<T>)
    requires Valid(s, es) && a <= s.calls.Keys
    ensures a <= Run(s, es).calls.Keys
    ensures MovesIn(es, a) + Work(Run(s, es), a) == Work(s, a)
  {
    if es != [] {
      WorkRun(s, es[..|es| - 1], a);
      WorkStep(Run(s, es[..|es| - 1]), es[|es| - 1], a);
    }
  }

  /** With a call, `a` has all older calls of its name. */
  ghost predicate Complete<T, C>(s: State<T, C>, a: set<T>)
    requires Logged(s)
  {
    forall t, u :: t in a && u in s.calls && Older(s, u, t) ==> u in a
  }

  lemma {:induction false} CompleteRun<T, C>(s: State<T, C>, es: seq<Event<T, C>>, a: set<T>)
    requires Live(s) && Valid(s, es) && a <= s.calls.Keys && Complete(s, a)
    ensures Live(Run(s, es)) && a <= Run(s, es).calls.Keys && Complete(Run(s, es), a)
  {
    if es != [] {
      var s1, e := Run(s, es[..|es| - 1]), es[|es| - 1];
      CompleteRun(s, es[..|es| - 1], a);
      LiveStep(s1, e);
      forall t, u | t in a && u in Next(s1, e).calls && Older(Next(s1, e), u, t) ensures u in a {
        if u in s1.calls { OlderStep(s1, e, u, t); } else { NewcomerIsLast(s1, e, t); }
      }
    }
  }

  /** No deadlock: as long as work is left, one of these calls can return or be released. */
  lemma CanMove<T, C>(s: State<T, C>, a: set<T>) returns (e: Event<T, C>)
    requires Live(s) && a <= s.calls.Keys && Complete(s, a) && Work(s, a) > 0
    ensures IsMove(e, a) && Enabled(s, e)
  {
    if t :| t in InStage(s, a, Holding) {
      e := Event.Release(t);
    } else {
      assert InStage(s, a, Holding) == {};
      assert InStage(s, a, Waiting) != {};
      var t :| t in InStage(s, a, Waiting);
      if Blocked(s, t) {
        var head := HeadOf(s, t);
        e := if s.calls[head].stage == Waiting then Event.Return(head) else Event.Release(head);
      } else {
        e := Event.Return(t);
      }
    }
  }

  /** So they drain: these calls alone, moving `Work` times, are all released. */
  lemma {:induction false} Drain<T, C>(s: State<T, C>, a: set<T>) returns (es: seq<Event<T, C>>)
    requires Live(s) && a <= s.calls.Keys && Complete(s, a)
    ensures Valid(s, es) && |es| == Work(s, a) == MovesIn(es, a)
    ensures forall t :: t in a ==> !Unreleased(Run(s, es), t)
  {
    es := DrainSteps(s, a, Work(s, a));
    WorkRun(s, es, a);
    NoWorkIsDone(Run(s, es), a);
  }

  lemma {:induction false} DrainSteps<T, C>(s: State<T, C>, a: set<T>, k: nat) returns (es: seq<Event<T, C>>)
    requires Live(s) && a <= s.calls.Keys && Complete(s, a) && k <= Work(s, a)
    ensures Valid(s, es) && |es| == k == MovesIn(es, a)
    decreases k
  {
    if k == 0 { return []; }
    var before := DrainSteps(s, a, k - 1);
    WorkRun(s, before, a);
    CompleteRun(s, before, a);
    var e := CanMove(Run(s, before), a);
    Extend(s, before, e);
    MovesSnoc(before, e, a);
    es := before + [e];
  }

  lemma MovesSnoc<T, C>(es: seq<Event<T, C>>, e: Event<T, C>, a: set<T>)
    ensures MovesIn(es + [e], a) == MovesIn(es, a) + if IsMove(e, a) then 1 else 0
  {
    assert (es + [e])[..|es + [e]| - 1] == es;
  }

  lemma NoWorkIsDone<T, C>(s: State<T, C>, a: set<T>)
    requires a <= s.calls.Keys
    ensures Work(s, a) == 0 <==> forall t :: t in a ==> !Unreleased(s, t)
  {
    if Work(s, a) == 0 {
      forall t | t in a ensures !Unreleased(s, t) {
        assert t !in InStage(s, a, Waiting) && t !in InStage(s, a, Holding);
        match s.calls[t].stage case Waiting => case Holding => case Done =>
      }
    }
    if forall t :: t in a ==> !Unreleased(s, t) {
      assert InStage(s, a, Waiting) == {};
      assert InStage(s, a, Holding) == {};
    }
  }

  // ---------------------------------------------------------------- the theorems, for all runs

  /** A call and the older ones of its name. */
  ghost function Ahead<T, C>(s: State<T, C>, t: T): set<T>
    requires Logged(s)
  {
    set u | u in s.calls && (u == t || Older(s, u, t))
  }

  lemma AheadIsComplete<T, C>(s: State<T, C>, t: T)
    requires Logged(s) && t in s.calls
    ensures Ahead(s, t) <= s.calls.Keys && Complete(s, Ahead(s, t)) && t in Ahead(s, t)
  {
  }

  /** Every Acquire returns, if those ahead keep moving: a call that waits after any run `before`
      of all operations has returned by the time that the calls ahead of it and itself have moved
      as often as `Work` says, whatever else happens; and until then one of them can move. */
  lemma WaitingIsServed<T, C>(before: seq<Event<T, C>>, after: seq<Event<T, C>>, t: T)
    requires Valid(Init<T, C>(), before) && Valid(Run(Init<T, C>(), before), after)
    requires var s := Run(Init<T, C>(), before); t in s.calls && s.calls[t].stage == Waiting
    ensures Live(Run(Init<T, C>(), before))
    ensures var s := Run(Init<T, C>(), before); var s' := Run(s, after); var a := Ahead(s, t);
      && t in s'.calls
      && (MovesIn(after, a) + 1 >= Work(s, a) ==> s'.calls[t].stage != Waiting)
      && (s'.calls[t].stage == Waiting ==> exists e :: IsMove(e, a) && Enabled(s', e))
  {
    var s := Run(Init<T, C>(), before);
    LiveRun(Init<T, C>(), before);
    var a := Ahead(s, t);
    AheadIsComplete(s, t);
    WorkRun(s, after, a);
    CompleteRun(s, after, a);
    var s' := Run(s, after);
    if s'.calls[t].stage == Waiting {
      assert t in InStage(s', a, Waiting);
      var e := CanMove(s', a);
    }
  }

  /** Shutdown: after any run, removals included, the calls that have entered Acquire by then have
      exactly `Work` returns and releases left, one of them is possible until none is left, and
      then all are released. Once no name is registered they have all been told to leave. */
  lemma ShutdownDrains<T, C>(before: seq<Event<T, C>>, after: seq<Event<T, C>>)
    requires Valid(Init<T, C>(), before) && Valid(Run(Init<T, C>(), before), after)
    ensures var s := Run(Init<T, C>(), before); var s' := Run(s, after); var a := s.calls.Keys;
      && MovesIn(after, a) + Work(s', a) == Work(s, a)
      && (Work(s', a) > 0 ==> exists e :: IsMove(e, a) && Enabled(s', e))
      && (Work(s', a) == 0 <==> forall t :: t in a ==> !Unreleased(s', t))
      && (s.maps.entries == map[] ==> forall t :: t in a && Unreleased(s, t) ==> Told(s, t))
  {
    var s := Run(Init<T, C>(), before);
    var a := s.calls.Keys;
    LiveRun(Init<T, C>(), before);
    WorkRun(s, after, a);
    CompleteRun(s, after, a);
    var s' := Run(s, after);
    NoWorkIsDone(s', a);
    if Work(s', a) > 0 { var e := CanMove(s', a); }
    if s.maps.entries == map[] {
      forall t | t in a && Unreleased(s, t) ensures Told(s, t) { EmptyIsTold(s, t); }
    }
  }
}
