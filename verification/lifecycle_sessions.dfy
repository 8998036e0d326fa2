/** What the takeover protocol gives to the handler of a websocket session. */
module LifecycleSessions {
  import opened Options
  import opened P = Takeover
  import T = TakeoverRuns
  import L = Lifecycle

  // ---------------------------------------------------------------- the machine and the manager

  function StageOf(pc: L.Pc): Stage {
    if pc == L.InAcquire then Waiting else if pc == L.Gone then Done else Holding
  }

  ghost predicate Paired(s: L.State) {
    && s.sessions.Keys == s.manager.calls.Keys
    && (forall i :: i in s.sessions ==>
          var x := s.sessions[i];
          s.manager.calls[i].name == x.name && s.manager.calls[i].stage == StageOf(x.pc) && x.name in s.rows)
  }

  /** The machine steps the manager just as the sessions step, and keeps the pairing. */
  lemma PairedOpen(s: L.State, e: L.Event)
    requires Paired(s) && e.Open? && L.Enabled(s, e)
    ensures Paired(L.Next(s, e))
  {
  }

  lemma PairedGrant(s: L.State, e: L.Event)
    requires Paired(s) && e.Grant? && L.Enabled(s, e)
    ensures Paired(L.Next(s, e))
  {
  }

  lemma PairedLeave(s: L.State, e: L.Event)
    requires Paired(s) && e.Leave? && L.Enabled(s, e)
    ensures Paired(L.Next(s, e))
  {
  }

  lemma PairedInside(s: L.State, e: L.Event)
    requires Paired(s) && (e.Clear? || e.Run? || e.Hangup? || e.SetExpiry? || e.Stop?) && L.Enabled(s, e)
    ensures Paired(L.Next(s, e))
  {
    InsideFrame(s, e);
  }

  /** Between Acquire and Release a session's steps leave the manager alone and keep the stage. */
  lemma InsideFrame(s: L.State, e: L.Event)
    requires (e.Clear? || e.Run? || e.Hangup? || e.SetExpiry? || e.Stop?) && L.Enabled(s, e)
    ensures var s' := L.Next(s, e);
      && s'.manager == s.manager && s'.rows.Keys == s.rows.Keys && s'.sessions.Keys == s.sessions.Keys
      && forall i :: i in s.sessions ==> s'.sessions[i].name == s.sessions[i].name
                                          && StageOf(s'.sessions[i].pc) == StageOf(s.sessions[i].pc)
  {
    var s' := L.Next(s, e);
    assert s'.sessions == s.sessions[e.sid := s'.sessions[e.sid]];
    assert s'.rows == s.rows || s'.rows == s.rows[s.sessions[e.sid].name := s'.rows[s.sessions[e.sid].name]];
  }

  lemma WorkerFrame(s: L.State, id: nat, outcome: L.Outcome)
    requires L.Enabled(s, L.Step(id, outcome))
    ensures var s' := L.Next(s, L.Step(id, outcome));
      && s'.manager == s.manager && s'.sessions == s.sessions && s'.log == s.log
      && s'.rows.Keys == s.rows.Keys
      && (forall n :: n in s.rows ==> s'.rows[n].expiresAt == s.rows[n].expiresAt)
  {
  }

  /** Sessions go through the protocol, one token each, and hold it from the return of Acquire to
      the deferred Release; ExpireAndRemove changes nothing about that. */
  lemma PairedStep(s: L.State, e: L.Event)
    requires Paired(s) && L.Enabled(s, e)
    ensures Paired(L.Next(s, e))
  {
    match e
    case Open(_, _, _, _) => PairedOpen(s, e);
    case Grant(_) => PairedGrant(s, e);
    case Leave(_) => PairedLeave(s, e);
    case Step(id, outcome) => WorkerFrame(s, id, outcome);
    case Create(_, _) =>
    case Tick(_) =>
    case Remove(_) =>
    case Find(_, _, _, _) =>
    case _ => PairedInside(s, e);
  }

  /** As long as nothing was removed, the hand-off chain holds besides. */
  ghost predicate Base(s: L.State) {
    Inv(s.manager) && Paired(s)
  }

  lemma BaseStep(s: L.State, e: L.Event)
    requires Base(s) && L.Enabled(s, e) && !e.Remove?
    ensures Base(L.Next(s, e))
  {
    PairedStep(s, e);
    match e
    case Open(sid, chan, name, _) => InvStep(s.manager, L.Call.Acquire(sid, chan, name, sid));
    case Grant(sid) => InvStep(s.manager, L.Call.Return(sid));
    case Leave(sid) => InvStep(s.manager, L.Call.Release(sid));
    case Tick(batch) => InvStep(s.manager, L.Call.Expire(batch));
    case Step(id, outcome) => WorkerFrame(s, id, outcome);
    case Create(_, _) =>
    case Find(_, _, _, _) =>
    case _ => InsideFrame(s, e);
  }

  /** In the critical part: from the return of Acquire until Release. */
  ghost predicate Active(s: L.State, i: nat) {
    i in s.sessions && s.sessions[i].pc != L.InAcquire && s.sessions[i].pc != L.Gone
  }

  /** Composition: two sessions of one instance are never in their critical parts together. */
  lemma OneActive(s: L.State, i: nat, j: nat)
    requires Base(s) && Active(s, i) && Active(s, j) && s.sessions[i].name == s.sessions[j].name
    ensures i == j
  {
    T.InvIsExclusive(s.manager);
  }

  // ---------------------------------------------------------------- the guarantees of a session

  /** The last effect on `name` that any session issued. */
  function LastOn(log: seq<L.Effect>, name: string): Option<L.Effect> {
    if log == [] then None
    else if log[|log| - 1].name == name then Some(log[|log| - 1])
    else LastOn(log[..|log| - 1], name)
  }

  ghost predicate ClearedRow(s: L.State, i: nat)
    requires i in s.sessions
  {
    var x := s.sessions[i];
    (x.pc == L.Entered ==> x.copy.expiresAt == None)
    && (x.pc == L.Cleared || x.pc == L.Proxying || x.pc == L.Proxied ==>
          x.cleared ==> x.name in s.rows && s.rows[x.name].expiresAt == None)
  }

  ghost predicate OwnStartLast(s: L.State, i: nat)
    requires i in s.sessions
  {
    var x := s.sessions[i];
    x.pc == L.Proxying || x.pc == L.Proxied ==> LastOn(s.log, x.name) == Some(L.StartContainer(i, x.name))
  }

  ghost predicate Guarded(s: L.State) {
    && Base(s)
    && (forall i :: i in s.sessions ==> ClearedRow(s, i))
    && (forall i :: i in s.sessions ==> OwnStartLast(s, i))
  }

  lemma LastOnAppend(log: seq<L.Effect>, f: L.Effect, name: string)
    ensures LastOn(log + [f], name) == if f.name == name then Some(f) else LastOn(log, name)
  {
    assert (log + [f])[..|log + [f]| - 1] == log;
  }

  lemma OwnStep(s: L.State, e: L.Event)
    requires L.IsSession(e) && L.Enabled(s, e)
    requires ClearedRow(s, e.sid) && OwnStartLast(s, e.sid)
    ensures ClearedRow(L.Next(s, e), e.sid) && OwnStartLast(L.Next(s, e), e.sid)
  {
    if e.Run? {
      LastOnAppend(s.log, L.StartContainer(e.sid, s.sessions[e.sid].name), s.sessions[e.sid].name);
    }
  }

  /** A session's step issues at most one effect, its own, and touches no other session. */
  lemma Issues(s: L.State, e: L.Event)
    requires L.IsSession(e) && L.Enabled(s, e)
    ensures var s' := L.Next(s, e);
      && e.sid in s'.sessions && s'.sessions == s.sessions[e.sid := s'.sessions[e.sid]]
      && (s'.log == s.log
          || (|s'.log| == |s.log| + 1 && s'.log == s.log + [s'.log[|s.log|]]
              && s'.log[|s.log|].sid == e.sid && s'.log[|s.log|].name == s.sessions[e.sid].name))
    ensures e.Grant? || e.Hangup? || e.Leave? ==> L.Next(s, e).log == s.log
  {
  }

  /** What a step of session `e.sid` leaves to the other names. */
  lemma SessionFrame(s: L.State, e: L.Event, n: string)
    requires L.IsSession(e) && L.Enabled(s, e) && n in s.rows
    ensures n in L.Next(s, e).rows
    ensures n != s.sessions[e.sid].name || e.Grant? || e.Hangup? || e.Leave? ==>
      L.Next(s, e).rows[n] == s.rows[n] && LastOn(L.Next(s, e).log, n) == LastOn(s.log, n)
    ensures forall j :: j in s.sessions && j != e.sid ==>
      j in L.Next(s, e).sessions && L.Next(s, e).sessions[j] == s.sessions[j]
  {
    var s' := L.Next(s, e);
    Issues(s, e);
    if s'.log != s.log {
      LastOnAppend(s.log, s'.log[|s.log|], n);
    }
  }

  lemma OtherStep(s: L.State, e: L.Event, i: nat)
    requires Base(s) && L.IsSession(e) && L.Enabled(s, e) && i in s.sessions && i != e.sid
    requires ClearedRow(s, i) && OwnStartLast(s, i)
    ensures i in L.Next(s, e).sessions && ClearedRow(L.Next(s, e), i) && OwnStartLast(L.Next(s, e), i)
  {
    SessionFrame(s, e, s.sessions[i].name);
    if Active(s, i) && Active(s, e.sid) && s.sessions[i].name == s.sessions[e.sid].name {
      OneActive(s, i, e.sid);
    }
  }

  lemma QuietStep(s: L.State, e: L.Event, i: nat)
    requires Base(s) && !L.IsSession(e) && L.Enabled(s, e) && i in s.sessions
    requires ClearedRow(s, i) && OwnStartLast(s, i)
    ensures i in L.Next(s, e).sessions && ClearedRow(L.Next(s, e), i) && OwnStartLast(L.Next(s, e), i)
  {
    if e.Step? { WorkerFrame(s, e.w, e.outcome); }
  }

  lemma GuardedStep(s: L.State, e: L.Event)
    requires Guarded(s) && L.Enabled(s, e) && !e.Remove?
    ensures Guarded(L.Next(s, e))
  {
    var s' := L.Next(s, e);
    BaseStep(s, e);
    forall i | i in s'.sessions ensures ClearedRow(s', i) && OwnStartLast(s', i) {
      if i in s.sessions {
        assert ClearedRow(s, i) && OwnStartLast(s, i);
        if !L.IsSession(e) {
          QuietStep(s, e, i);
        } else if i == e.sid {
          OwnStep(s, e);
        } else {
          OtherStep(s, e, i);
        }
      } else {
        NewSession(s, e, i);
      }
    }
  }

  lemma NewSession(s: L.State, e: L.Event, i: nat)
    requires L.Enabled(s, e) && i !in s.sessions && i in L.Next(s, e).sessions
    ensures L.Next(s, e).sessions[i].pc == L.InAcquire && !L.IsSession(e)
  {
    if e.Step? { WorkerFrame(s, e.w, e.outcome); }
    if L.IsSession(e) { Issues(s, e); }
  }

  // ---------------------------------------------------------------- runs

  function Run(s: L.State, es: seq<L.Event>): L.State
    requires Valid(s, es)
    decreases |es|, 1
  {
    if es == [] then s else L.Next(Run(s, es[..|es| - 1]), es[|es| - 1])
  }

  ghost predicate Valid(s: L.State, es: seq<L.Event>)
    decreases |es|, 0
  {
    es == [] || (Valid(s, es[..|es| - 1]) && L.Enabled(Run(s, es[..|es| - 1]), es[|es| - 1]))
  }

  /** No ExpireAndRemove. */
  ghost predicate Calm(es: seq<L.Event>) {
    forall i :: 0 <= i < |es| ==> !es[i].Remove?
  }

  lemma {:induction false} PairedRun(es: seq<L.Event>)
    requires Valid(L.Start(), es)
    ensures Paired(Run(L.Start(), es))
  {
    if es != [] {
      PairedRun(es[..|es| - 1]);
      PairedStep(Run(L.Start(), es[..|es| - 1]), es[|es| - 1]);
    }
  }

  lemma {:induction false} GuardedRun(s: L.State, es: seq<L.Event>)
    requires Guarded(s) && Valid(s, es) && Calm(es)
    ensures Guarded(Run(s, es))
  {
    if es != [] {
      GuardedRun(s, es[..|es| - 1]);
      GuardedStep(Run(s, es[..|es| - 1]), es[|es| - 1]);
    }
  }

  /** While session `i` proxies, its row has no expiry, if its first write went through, so no
      sweep taken now selects it. */
  lemma NotSelected(s: L.State, i: nat, w: nat, now: int, todo: seq<L.Copy>, k: nat)
    requires Guarded(s) && i in s.sessions && s.sessions[i].pc == L.Proxying && s.sessions[i].cleared
    requires L.Enabled(s, L.Find(w, L.Sweep, now, todo)) && k < |todo|
    ensures todo[k].name != s.sessions[i].name
  {
    assert ClearedRow(s, i);
  }

  /** Past the entry into Acquire, every step of a session needs the token. */
  lemma OnlyOne(s: L.State, i: nat, e: L.Event)
    requires Base(s) && Active(s, i) && L.IsSession(e) && L.Enabled(s, e)
    requires s.sessions[e.sid].name == s.sessions[i].name
    ensures e.sid == i
  {
    if e.Grant? {
      NoGrant(s, i, e.sid);
    } else {
      OneActive(s, i, e.sid);
    }
  }

  lemma NoGrant(s: L.State, i: nat, j: nat)
    requires Base(s) && Active(s, i) && j in s.sessions && s.sessions[j].name == s.sessions[i].name
    ensures !P.Enabled(s.manager, L.Call.Return(j))
  {
    ReturnAtHead(s.manager, j);
    ReleaseAtHead(s.manager, i);
  }

  /** Session safety, for every run without ExpireAndRemove: while session `i` is in its proxy
      phase, and its write that disables the expiry went through, its row has no expiry, so no
      sweep taken now selects it; the last thing any session did to the row or the container is
      the start by `i`; and no other session of the instance can get past Acquire. */
  lemma SessionSafety(es: seq<L.Event>, i: nat)
    requires Valid(L.Start(), es) && Calm(es)
    requires var s := Run(L.Start(), es); i in s.sessions && s.sessions[i].pc == L.Proxying
    ensures var s := Run(L.Start(), es); var n := s.sessions[i].name;
      && n in s.rows
      && (s.sessions[i].cleared ==> s.rows[n].expiresAt == None)
      && (s.sessions[i].cleared ==> forall w, now, todo: seq<L.Copy>, k ::
            L.Enabled(s, L.Find(w, L.Sweep, now, todo)) && 0 <= k < |todo| ==> todo[k].name != n)
      && LastOn(s.log, n) == Some(L.StartContainer(i, n))
      && (forall e :: L.IsSession(e) && L.Enabled(s, e) && s.sessions[e.sid].name == n ==> e.sid == i)
  {
    GuardedRun(L.Start(), es);
    Phase(Run(L.Start(), es), i);
  }

  lemma Phase(s: L.State, i: nat)
    requires Guarded(s) && i in s.sessions && s.sessions[i].pc == L.Proxying
    ensures var n := s.sessions[i].name;
      && n in s.rows
      && (s.sessions[i].cleared ==> s.rows[n].expiresAt == None)
      && (s.sessions[i].cleared ==> forall w, now, todo: seq<L.Copy>, k ::
            L.Enabled(s, L.Find(w, L.Sweep, now, todo)) && 0 <= k < |todo| ==> todo[k].name != n)
      && LastOn(s.log, n) == Some(L.StartContainer(i, n))
      && (forall e :: L.IsSession(e) && L.Enabled(s, e) && s.sessions[e.sid].name == n ==> e.sid == i)
  {
    var n := s.sessions[i].name;
    assert ClearedRow(s, i) && OwnStartLast(s, i);
    if s.sessions[i].cleared {
      forall w, now, todo: seq<L.Copy>, k | L.Enabled(s, L.Find(w, L.Sweep, now, todo)) && 0 <= k < |todo|
        ensures todo[k].name != n
      {
        NotSelected(s, i, w, now, todo, k);
      }
    }
    forall e | L.IsSession(e) && L.Enabled(s, e) && s.sessions[e.sid].name == n ensures e.sid == i {
      OnlyOne(s, i, e);
    }
  }

  // ---------------------------------------------------------------- ExpireAndRemove

  ghost predicate Exclusive(s: L.State) {
    forall i, j :: Active(s, i) && Active(s, j) && s.sessions[i].name == s.sessions[j].name ==> i == j
  }

  ghost predicate ExclusiveEver(s: L.State) {
    forall es :: Valid(s, es) && Calm(es) ==> Exclusive(Run(s, es))
  }

  lemma Extend(s: L.State, es: seq<L.Event>, e: L.Event)
    requires Valid(s, es) && L.Enabled(Run(s, es), e)
    ensures Valid(s, es + [e]) && Run(s, es + [e]) == L.Next(Run(s, es), e)
  {
    assert (es + [e])[..|es + [e]| - 1] == es;
  }

  /** A session of a name without an entry enters and does not wait. */
  lemma WalksIn(s0: L.State, es: seq<L.Event>, i: nat, j: nat, chan: nat) returns (all: seq<L.Event>)
    requires Valid(s0, es) && Calm(es)
    requires var s := Run(s0, es);
      && Active(s, i) && s.sessions[i].name in s.rows && s.sessions[i].name !in s.manager.maps.entries
      && j !in s.sessions && j !in s.manager.calls && chan !in s.manager.made
    ensures Valid(s0, all) && Calm(all) && !Exclusive(Run(s0, all))
  {
    var s := Run(s0, es);
    var n := s.sessions[i].name;
    var open := L.Open(j, chan, n, s.rows[n]);
    Extend(s0, es, open);
    Extend(s0, es + [open], L.Grant(j));
    all := es + [open] + [L.Grant(j)];
    assert Active(Run(s0, all), i) && Active(Run(s0, all), j) && i != j;
  }

  /** A session that holds the token, or could get it now, gets into its critical part. */
  lemma GetsIn(s: L.State, i: nat) returns (es: seq<L.Event>)
    requires Paired(s) && i in s.sessions
    requires s.manager.calls[i].stage == Holding || P.Enabled(s.manager, L.Call.Return(i))
    ensures Valid(s, es) && (es == [] || es == [L.Grant(i)])
    ensures Active(Run(s, es), i) && Run(s, es).sessions[i].name == s.sessions[i].name
    ensures Run(s, es).sessions.Keys == s.sessions.Keys && Run(s, es).rows == s.rows
    ensures Run(s, es).manager.maps == s.manager.maps && Run(s, es).manager.made == s.manager.made
    ensures Run(s, es).manager.calls.Keys == s.manager.calls.Keys
  {
    es := [];
    if s.manager.calls[i].stage != Holding {
      Extend(s, [], L.Grant(i));
      es := [] + [L.Grant(i)];
    }
  }

  /** The schedule that brings two sessions together after a removal. */
  lemma RemoveAdmitsSecond(s: L.State, n: string, j: nat, chan: nat) returns (es: seq<L.Event>)
    requires Base(s) && n in s.manager.maps.entries && j !in s.sessions && chan !in s.manager.made
    ensures Valid(L.Next(s, L.Remove(n)), es) && Calm(es) && !Exclusive(Run(L.Next(s, L.Remove(n)), es))
  {
    var i := T.Holder(s.manager, n);
    es := SecondComes(L.Next(s, L.Remove(n)), i, j, chan);
  }

  lemma SecondComes(s: L.State, i: nat, j: nat, chan: nat) returns (es: seq<L.Event>)
    requires Paired(s) && i in s.sessions && s.sessions[i].name !in s.manager.maps.entries
    requires s.manager.calls[i].stage == Holding || P.Enabled(s.manager, L.Call.Return(i))
    requires j !in s.sessions && chan !in s.manager.made
    ensures Valid(s, es) && Calm(es) && !Exclusive(Run(s, es))
  {
    var first := GetsIn(s, i);
    es := WalksIn(s, first, i, j, chan);
  }

  /** ExpireAndRemove is safe for sessions, over all that may follow without a further one, if and
      only if no session holds or awaits the name: then it does nothing. */
  lemma RemoveKeepsSafetyIff(s: L.State, n: string, j: nat, chan: nat)
    requires Guarded(s) && j !in s.sessions && chan !in s.manager.made
    ensures ExclusiveEver(L.Next(s, L.Remove(n))) <==> n !in s.manager.maps.entries
  {
    if n in s.manager.maps.entries {
      var es := RemoveAdmitsSecond(s, n, j, chan);
    } else {
      assert L.Next(s, L.Remove(n)) == s;
      forall es | Valid(s, es) && Calm(es) ensures Exclusive(Run(s, es)) {
        GuardedRun(s, es);
        forall i, k | Active(Run(s, es), i) && Active(Run(s, es), k)
          && Run(s, es).sessions[i].name == Run(s, es).sessions[k].name
          ensures i == k
        {
          OneActive(Run(s, es), i, k);
        }
      }
    }
  }
}
