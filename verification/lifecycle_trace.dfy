/** What the events of a run alone say about its sessions, its rows and the expiry manager, and that
    the machine does just that. All of it holds in every run, removals included. */
module LifecycleTrace {
  import opened Options
  import opened LifecycleSessions
  import L = Lifecycle
  import P = Takeover
  import T = TakeoverRuns

  // ---------------------------------------------------------------- what the events say

  /** The instance that session `i` was opened for. */
  function OpenedFor(es: seq<L.Event>, i: nat): Option<string> {
    if es == [] then None
    else
      var e := es[|es| - 1];
      if e.Open? && e.sid == i then Some(e.name) else OpenedFor(es[..|es| - 1], i)
  }

  /** The expiry time that session `i` computed when its proxy returned. */
  function HungUp(es: seq<L.Event>, i: nat): Option<int> {
    if es == [] then None
    else
      var e := es[|es| - 1];
      if e.Hangup? && e.sid == i then Some(e.expires) else HungUp(es[..|es| - 1], i)
  }

  /** How many effects session `i` has issued. */
  function Issued(es: seq<L.Event>, i: nat): nat {
    if es == [] then 0
    else
      var e := es[|es| - 1];
      Issued(es[..|es| - 1], i) + if (e.Clear? || e.Run? || e.SetExpiry? || e.Stop?) && e.sid == i then 1 else 0
  }

  predicate Created(es: seq<L.Event>, n: string) {
    exists k :: 0 <= k < |es| && es[k].Create? && es[k].name == n
  }

  /** The last write of the ExpiresAt column of `n` that reached the database, as the events have
      it: by the insertion, by the opening, or by the end of a session of `n`. */
  function ExpiryOf(es: seq<L.Event>, n: string): Option<int> {
    if es == [] then None
    else
      var before, e := es[..|es| - 1], es[|es| - 1];
      match e
      case Create(name, expires) => if name == n then Some(expires) else ExpiryOf(before, n)
      case Clear(i, true) => if OpenedFor(before, i) == Some(n) then None else ExpiryOf(before, n)
      case SetExpiry(i, true) => if OpenedFor(before, i) == Some(n) then HungUp(before, i) else ExpiryOf(before, n)
      case _ => ExpiryOf(before, n)
  }

  /** The effects of one handleInstance in the order in which its body issues them: the first is
      number 1. */
  function Nth(i: nat, name: string, expires: Option<int>, k: nat): L.Effect {
    if k == 1 then L.WriteExpiry(i, name, None)
    else if k == 2 then L.StartContainer(i, name)
    else if k == 3 then L.WriteExpiry(i, name, expires)
    else L.StopContainer(i, name)
  }

  function Script(i: nat, name: string, expires: Option<int>, k: nat): seq<L.Effect> {
    if k == 0 then [] else Script(i, name, expires, k - 1) + [Nth(i, name, expires, k)]
  }

  function EffectsBy(log: seq<L.Effect>, i: nat): seq<L.Effect> {
    if log == [] then []
    else EffectsBy(log[..|log| - 1], i) + if log[|log| - 1].sid == i then [log[|log| - 1]] else []
  }

  // ---------------------------------------------------------------- sessions

  function StepsBefore(pc: L.Pc): nat {
    match pc
    case InAcquire => 0
    case Entered => 0
    case Cleared => 1
    case Proxying => 2
    case Proxied => 2
    case ExpirySet => 3
    case Stopped => 4
    case Gone => 4
  }

  predicate PastHangup(pc: L.Pc) {
    pc == L.Proxied || pc == L.ExpirySet || pc == L.Stopped || pc == L.Gone
  }

  /** A session knows its name and, past its hangup, the expiry time that it computed then. */
  ghost predicate Follows(x: L.Session, es: seq<L.Event>, i: nat) {
    && OpenedFor(es, i) == Some(x.name)
    && Issued(es, i) == StepsBefore(x.pc)
    && (if PastHangup(x.pc) then HungUp(es, i).Some? && x.copy.expiresAt == HungUp(es, i) else HungUp(es, i) == None)
    && (x.pc == L.Entered || x.pc == L.Cleared || x.pc == L.Proxying ==> x.copy.expiresAt == None)
  }

  ghost predicate Unknown(es: seq<L.Event>, i: nat) {
    OpenedFor(es, i) == None && Issued(es, i) == 0 && HungUp(es, i) == None
  }

  ghost predicate SessionsFollow(s: L.State, es: seq<L.Event>) {
    && (forall i :: i in s.sessions ==> Follows(s.sessions[i], es, i))
    && (forall i :: i !in s.sessions ==> Unknown(es, i))
  }

  lemma FollowsOther(s: L.State, es: seq<L.Event>, e: L.Event, i: nat)
    requires Paired(s) && L.Enabled(s, e) && SessionsFollow(s, es)
    requires (L.IsSession(e) || e.Open?) ==> e.sid != i
    ensures i in s.sessions <==> i in L.Next(s, e).sessions
    ensures i in s.sessions ==> L.Next(s, e).sessions[i] == s.sessions[i]
    ensures OpenedFor(es + [e], i) == OpenedFor(es, i) && HungUp(es + [e], i) == HungUp(es, i)
    ensures Issued(es + [e], i) == Issued(es, i)
  {
    assert (es + [e])[..|es + [e]| - 1] == es;
    if e.Step? {
      WorkerFrame(s, e.w, e.outcome);
    } else if L.IsSession(e) {
      Issues(s, e);
    }
  }

  lemma FollowsOpen(s: L.State, es: seq<L.Event>, e: L.Event)
    requires Paired(s) && L.Enabled(s, e) && SessionsFollow(s, es) && e.Open?
    ensures e.sid in L.Next(s, e).sessions && Follows(L.Next(s, e).sessions[e.sid], es + [e], e.sid)
  {
    assert (es + [e])[..|es + [e]| - 1] == es;
    assert Unknown(es, e.sid);
  }

  lemma FollowsOwn(s: L.State, es: seq<L.Event>, e: L.Event)
    requires L.Enabled(s, e) && L.IsSession(e) && Follows(s.sessions[e.sid], es, e.sid)
    ensures e.sid in L.Next(s, e).sessions && Follows(L.Next(s, e).sessions[e.sid], es + [e], e.sid)
  {
    assert (es + [e])[..|es + [e]| - 1] == es;
  }

  lemma FollowsStep(s: L.State, es: seq<L.Event>, e: L.Event)
    requires Paired(s) && L.Enabled(s, e) && SessionsFollow(s, es)
    ensures SessionsFollow(L.Next(s, e), es + [e])
  {
    var s' := L.Next(s, e);
    if e.Open? { FollowsOpen(s, es, e); }
    if L.IsSession(e) { FollowsOwn(s, es, e); }
    forall i: nat | !((L.IsSession(e) || e.Open?) && e.sid == i)
      ensures if i in s'.sessions then Follows(s'.sessions[i], es + [e], i) else Unknown(es + [e], i)
    {
      FollowsOther(s, es, e, i);
      assert if i in s.sessions then Follows(s.sessions[i], es, i) else Unknown(es, i);
    }
  }

  lemma {:induction false} FollowsRun(es: seq<L.Event>)
    requires Valid(L.Start(), es)
    ensures SessionsFollow(Run(L.Start(), es), es)
  {
    if es != [] {
      var before, e := es[..|es| - 1], es[|es| - 1];
      FollowsRun(before);
      PairedRun(before);
      FollowsStep(Run(L.Start(), before), before, e);
      assert es == before + [e];
    }
  }

  /** Past its hangup, a session holds the expiry time that it computed at its own hangup; before, and
      from the return of Acquire on, none. */
  lemma HangupIsKept(es: seq<L.Event>, i: nat)
    requires Valid(L.Start(), es) && i in Run(L.Start(), es).sessions
    ensures var x := Run(L.Start(), es).sessions[i];
      && (PastHangup(x.pc) ==>
            x.copy.expiresAt.Some? && x.copy.expiresAt == HungUp(es, i)
            && L.Hangup(i, x.copy.expiresAt.value) in es)
      && (!PastHangup(x.pc) && x.pc != L.InAcquire ==> x.copy.expiresAt == None)
  {
    FollowsRun(es);
    assert Follows(Run(L.Start(), es).sessions[i], es, i);
    if HungUp(es, i).Some? { HungUpIsThere(es, i); }
  }

  lemma {:induction false} HungUpIsThere(es: seq<L.Event>, i: nat)
    requires HungUp(es, i).Some?
    ensures L.Hangup(i, HungUp(es, i).value) in es
  {
    var before, e := es[..|es| - 1], es[|es| - 1];
    assert es == before + [e];
    if !(e.Hangup? && e.sid == i) { HungUpIsThere(before, i); }
  }

  // ---------------------------------------------------------------- rows

  ghost predicate RowsFollow(s: L.State, es: seq<L.Event>) {
    && (forall n :: n in s.rows <==> Created(es, n))
    && (forall n :: n in s.rows ==> s.rows[n].expiresAt == ExpiryOf(es, n))
  }

  lemma CreatedAppend(es: seq<L.Event>, e: L.Event, n: string)
    ensures Created(es + [e], n) <==> Created(es, n) || (e.Create? && e.name == n)
  {
    if Created(es, n) {
      var k :| 0 <= k < |es| && es[k].Create? && es[k].name == n;
      assert (es + [e])[k] == es[k];
    } else if e.Create? && e.name == n {
      assert (es + [e])[|es|] == e;
    }
  }

  lemma SessionRows(s: L.State, es: seq<L.Event>, e: L.Event, n: string)
    requires L.Enabled(s, e) && L.IsSession(e) && Follows(s.sessions[e.sid], es, e.sid)
    requires n in s.rows && s.rows[n].expiresAt == ExpiryOf(es, n)
    ensures L.Next(s, e).rows.Keys == s.rows.Keys && L.Next(s, e).rows[n].expiresAt == ExpiryOf(es + [e], n)
  {
    assert (es + [e])[..|es + [e]| - 1] == es;
    assert s.sessions[e.sid].name in s.rows;
  }

  lemma RowsStep(s: L.State, es: seq<L.Event>, e: L.Event)
    requires L.Enabled(s, e) && SessionsFollow(s, es) && RowsFollow(s, es)
    ensures RowsFollow(L.Next(s, e), es + [e])
  {
    assert (es + [e])[..|es + [e]| - 1] == es;
    forall n ensures Created(es + [e], n) <==> Created(es, n) || (e.Create? && e.name == n) {
      CreatedAppend(es, e, n);
    }
    if e.Step? {
      WorkerFrame(s, e.w, e.outcome);
    } else if L.IsSession(e) {
      assert Follows(s.sessions[e.sid], es, e.sid) && s.sessions[e.sid].name in s.rows;
      forall n | n in s.rows ensures L.Next(s, e).rows[n].expiresAt == ExpiryOf(es + [e], n) {
        SessionRows(s, es, e, n);
      }
    }
  }

  /** In every run, the rows are those inserted, and what a row has for its expiry is what the events
      say: the workers, who hold stale copies, never write it. */
  lemma {:induction false} ExpiryIsLastWrite(es: seq<L.Event>)
    requires Valid(L.Start(), es)
    ensures RowsFollow(Run(L.Start(), es), es)
  {
    if es != [] {
      var before, e := es[..|es| - 1], es[|es| - 1];
      ExpiryIsLastWrite(before);
      FollowsRun(before);
      RowsStep(Run(L.Start(), before), before, e);
      assert es == before + [e];
    }
  }

  /** So when a session sets the expiry at its end, the row has the time of the session's hangup. */
  lemma SetExpirySets(es: seq<L.Event>, i: nat)
    requires Valid(L.Start(), es) && es != [] && es[|es| - 1] == L.SetExpiry(i, true)
    ensures var s := Run(L.Start(), es);
      && i in s.sessions && s.sessions[i].name in s.rows && s.rows[s.sessions[i].name].expiresAt.Some?
      && L.Hangup(i, s.rows[s.sessions[i].name].expiresAt.value) in es
  {
    HangupIsKept(es, i);
    PairedRun(es);
  }

  // ---------------------------------------------------------------- effects

  ghost predicate Scripted(log: seq<L.Effect>, es: seq<L.Event>, i: nat) {
    match OpenedFor(es, i)
    case None => EffectsBy(log, i) == []
    case Some(name) =>
      && Issued(es, i) <= 4 && (Issued(es, i) >= 3 ==> HungUp(es, i).Some?)
      && EffectsBy(log, i) == Script(i, name, HungUp(es, i), Issued(es, i))
  }

  lemma EffectsByAppend(log: seq<L.Effect>, f: L.Effect, i: nat)
    ensures EffectsBy(log + [f], i) == EffectsBy(log, i) + if f.sid == i then [f] else []
  {
    assert (log + [f])[..|log + [f]| - 1] == log;
  }

  lemma {:induction false} ScriptBeginning(i: nat, name: string, x: Option<int>, y: Option<int>, k: nat)
    requires k <= 2
    ensures Script(i, name, x, k) == Script(i, name, y, k)
  {
    if k > 0 { ScriptBeginning(i, name, x, y, k - 1); }
  }

  /** A session's step issues the effect that is next in its script, or none. */
  lemma NextEffect(s: L.State, es: seq<L.Event>, e: L.Event)
    requires L.Enabled(s, e) && L.IsSession(e) && Follows(s.sessions[e.sid], es, e.sid)
    ensures var k := Issued(es, e.sid); var x := s.sessions[e.sid];
      && k <= 4 && OpenedFor(es, e.sid) == OpenedFor(es + [e], e.sid) == Some(x.name)
      && (Issued(es + [e], e.sid) == k ==> L.Next(s, e).log == s.log)
      && (Issued(es + [e], e.sid) != k ==>
            && k <= 3 && Issued(es + [e], e.sid) == k + 1
            && L.Next(s, e).log == s.log + [Nth(e.sid, x.name, HungUp(es, e.sid), k + 1)])
      && (HungUp(es + [e], e.sid) != HungUp(es, e.sid) ==> Issued(es + [e], e.sid) == k <= 2)
      && (Issued(es + [e], e.sid) >= 3 ==> HungUp(es + [e], e.sid).Some?)
  {
    assert (es + [e])[..|es + [e]| - 1] == es;
  }

  lemma ScriptedOwn(s: L.State, es: seq<L.Event>, e: L.Event)
    requires L.Enabled(s, e) && L.IsSession(e) && Follows(s.sessions[e.sid], es, e.sid) && Scripted(s.log, es, e.sid)
    ensures Scripted(L.Next(s, e).log, es + [e], e.sid)
  {
    var i, x, k := e.sid, s.sessions[e.sid], Issued(es, e.sid);
    NextEffect(s, es, e);
    if Issued(es + [e], i) != k {
      EffectsByAppend(s.log, Nth(i, x.name, HungUp(es, i), k + 1), i);
    } else if k <= 2 {
      ScriptBeginning(i, x.name, HungUp(es, i), HungUp(es + [e], i), k);
    }
  }

  lemma ScriptedOther(s: L.State, es: seq<L.Event>, e: L.Event, i: nat)
    requires Paired(s) && L.Enabled(s, e) && SessionsFollow(s, es) && (L.IsSession(e) ==> e.sid != i)
    requires Scripted(s.log, es, i)
    ensures Scripted(L.Next(s, e).log, es + [e], i)
  {
    var s' := L.Next(s, e);
    if e.Open? && e.sid == i {
      assert Unknown(es, i);
      FollowsOpen(s, es, e);
    } else {
      FollowsOther(s, es, e, i);
      if e.Step? { WorkerFrame(s, e.w, e.outcome); }
      if L.IsSession(e) { Issues(s, e); }
      if s'.log != s.log { EffectsByAppend(s.log, s'.log[|s.log|], i); }
    }
  }

  /** In every run each session issues its own four effects, each once, in order: disable the
      expiry, start, set the expiry to the time that its hangup computed, stop. */
  lemma {:induction false} SessionsFollowScript(es: seq<L.Event>, i: nat)
    requires Valid(L.Start(), es)
    ensures Scripted(Run(L.Start(), es).log, es, i)
  {
    if es != [] {
      var before, e := es[..|es| - 1], es[|es| - 1];
      var s := Run(L.Start(), before);
      SessionsFollowScript(before, i);
      PairedRun(before);
      FollowsRun(before);
      assert es == before + [e];
      if L.IsSession(e) && e.sid == i {
        assert Follows(s.sessions[i], before, i);
        ScriptedOwn(s, before, e);
      } else {
        ScriptedOther(s, before, e, i);
      }
    }
  }

  /** A session between Acquire and Release can always take its next step, and no other. */
  lemma SessionGoesOn(es: seq<L.Event>, i: nat, e: L.Event)
    requires Valid(L.Start(), es) && i in Run(L.Start(), es).sessions
    requires L.IsSession(e) && e.sid == i && Run(L.Start(), es).sessions[i].pc != L.InAcquire
    ensures L.Enabled(Run(L.Start(), es), e) <==>
      match Run(L.Start(), es).sessions[i].pc
      case Entered => e.Clear?
      case Cleared => e.Run?
      case Proxying => e.Hangup?
      case Proxied => e.SetExpiry?
      case ExpirySet => e.Stop?
      case Stopped => e.Leave?
      case _ => false
  {
    PairedRun(es);
  }

  // ---------------------------------------------------------------- the expiry manager

  /** What the expiry manager sees of a step. */
  function CallOf(e: L.Event): Option<L.Call> {
    match e
    case Open(sid, chan, name, _) => Some(L.Call.Acquire(sid, chan, name, sid))
    case Grant(sid) => Some(L.Call.Return(sid))
    case Leave(sid) => Some(L.Call.Release(sid))
    case Tick(batch) => Some(L.Call.Expire(batch))
    case Remove(name) => Some(L.Call.Remove(name))
    case _ => None
  }

  function Calls(es: seq<L.Event>): seq<L.Call> {
    if es == [] then []
    else
      var call := CallOf(es[|es| - 1]);
      if call.Some? then Calls(es[..|es| - 1]) + [call.value] else Calls(es[..|es| - 1])
  }

  lemma ManagerStep(s: L.State, e: L.Event)
    requires L.Enabled(s, e)
    ensures CallOf(e).None? ==> L.Next(s, e).manager == s.manager
    ensures CallOf(e).Some? ==> P.Enabled(s.manager, CallOf(e).value)
    ensures CallOf(e).Some? ==> L.Next(s, e).manager == P.Next(s.manager, CallOf(e).value)
  {
    if e.Step? { WorkerFrame(s, e.w, e.outcome); }
  }

  /** What the manager sees of a run is a run of the takeover protocol, and it is in that run's state:
      what is proved about all runs of the protocol holds here. */
  lemma {:induction false} RunsTheProtocol(es: seq<L.Event>)
    requires Valid(L.Start(), es)
    ensures T.Valid(P.Init<nat, nat>(), Calls(es))
    ensures T.Run(P.Init<nat, nat>(), Calls(es)) == Run(L.Start(), es).manager
  {
    if es != [] {
      var before, e := es[..|es| - 1], es[|es| - 1];
      RunsTheProtocol(before);
      ManagerStep(Run(L.Start(), before), e);
      if CallOf(e).Some? { T.Extend(P.Init<nat, nat>(), Calls(before), CallOf(e).value); }
    }
  }
}
