/** The flags of an instance's row under concurrent workers that hold stale copies. */
module LifecycleRows {
  import opened Options
  import L = Lifecycle
  import opened LifecycleSessions

  // ---------------------------------------------------------------- monotone flags

  /** A row is never dropped; Active never returns to true, Cleaned never returns to false. */
  ghost predicate Progressed(s: L.State, s': L.State) {
    forall n :: n in s.rows ==>
      n in s'.rows
      && (s'.rows[n].active ==> s.rows[n].active)
      && (s.rows[n].cleaned ==> s'.rows[n].cleaned)
  }

  ghost predicate FlagsOk(s: L.State) {
    forall n :: n in s.rows && s.rows[n].cleaned ==> !s.rows[n].active
  }

  lemma WorkerFlags(s: L.State, id: nat, outcome: L.Outcome)
    requires L.Enabled(s, L.Step(id, outcome))
    ensures Progressed(s, L.Next(s, L.Step(id, outcome)))
    ensures FlagsOk(s) ==> FlagsOk(L.Next(s, L.Step(id, outcome)))
  {
  }

  lemma FlagsStep(s: L.State, e: L.Event)
    requires L.Enabled(s, e)
    ensures Progressed(s, L.Next(s, e))
    ensures FlagsOk(s) ==> FlagsOk(L.Next(s, e))
  {
    if e.Step? {
      WorkerFlags(s, e.w, e.outcome);
    } else {
      var s' := L.Next(s, e);
      assert forall n :: n in s.rows ==>
        n in s'.rows && s'.rows[n].active == s.rows[n].active && s'.rows[n].cleaned == s.rows[n].cleaned;
    }
  }

  lemma {:induction false} FlagsRun(s: L.State, es: seq<L.Event>)
    requires Valid(s, es)
    ensures Progressed(s, Run(s, es))
    ensures FlagsOk(s) ==> FlagsOk(Run(s, es))
  {
    if es != [] {
      FlagsRun(s, es[..|es| - 1]);
      FlagsStep(Run(s, es[..|es| - 1]), es[|es| - 1]);
    }
  }

  lemma {:induction false} ValidSplit(s: L.State, es: seq<L.Event>, k: nat)
    requires Valid(s, es) && k <= |es|
    ensures Valid(s, es[..k]) && Valid(Run(s, es[..k]), es[k..])
    ensures Run(Run(s, es[..k]), es[k..]) == Run(s, es)
    decreases |es|
  {
    if k == |es| {
      assert es[..k] == es;
    } else {
      var before, last := es[..|es| - 1], es[|es| - 1];
      ValidSplit(s, before, k);
      assert before[..k] == es[..k];
      assert es[k..] == before[k..] + [last];
      Extend(Run(s, es[..k]), before[k..], last);
    }
  }

  /** Lifecycle under stale copies: in every run of any number of sessions, sweeps and cleaners,
      with finds, column updates and removals interleaved in any way, no row is cleaned and active, and
      between any two moments flags only move from active to inactive to cleaned. */
  lemma LifecycleFlags(es: seq<L.Event>, k: nat)
    requires Valid(L.Start(), es) && k <= |es|
    ensures Valid(L.Start(), es[..k])
    ensures FlagsOk(Run(L.Start(), es))
    ensures Progressed(Run(L.Start(), es[..k]), Run(L.Start(), es))
  {
    ValidSplit(L.Start(), es, k);
    FlagsRun(Run(L.Start(), es[..k]), es[k..]);
    FlagsRun(L.Start(), es);
  }

  // ---------------------------------------------------------------- cleaned means removed

  ghost predicate PastRemoval(s: L.State, w: L.Worker) {
    w.todo != [] && (w.at == L.RemovingImage || w.at == L.Marking) ==> w.todo[0].name !in s.containers
  }

  /** No job forces the flags, and a container is gone before its row is marked. */
  ghost predicate RemovedFirst(s: L.State) {
    && (forall id :: id in s.workers ==>
          s.workers[id].job != L.ForceMark && s.workers[id].at != L.Forcing && PastRemoval(s, s.workers[id])
          && forall k :: 0 <= k < |s.workers[id].todo| ==> s.workers[id].todo[k].name in s.rows)
    && s.containers <= s.rows.Keys
    && (forall n :: n in s.rows && s.rows[n].cleaned ==> n !in s.containers)
  }

  ghost predicate NoForce(es: seq<L.Event>) {
    forall i :: 0 <= i < |es| ==> es[i].Find? ==> es[i].job != L.ForceMark
  }

  /** The worker's own step: it never forces, comes past the removal only when the container is
      gone, and marks its row only there. */
  lemma RemovedOwn(s: L.State, id: nat, outcome: L.Outcome)
    requires RemovedFirst(s) && L.Enabled(s, L.Step(id, outcome))
    ensures var s' := L.Next(s, L.Step(id, outcome));
      && s'.containers <= s.containers && s'.rows.Keys == s.rows.Keys && s'.workers.Keys == s.workers.Keys
      && (forall j :: j in s.workers && j != id ==> s'.workers[j] == s.workers[j])
      && s'.workers[id].job == s.workers[id].job && s'.workers[id].at != L.Forcing && PastRemoval(s', s'.workers[id])
      && (s'.workers[id].todo == s.workers[id].todo || s'.workers[id].todo == s.workers[id].todo[1..])
      && (forall n :: n in s.rows && s'.rows[n].cleaned ==> s.rows[n].cleaned || n !in s'.containers)
  {
    assert PastRemoval(s, s.workers[id]);
  }

  lemma RemovedWorker(s: L.State, id: nat, outcome: L.Outcome)
    requires RemovedFirst(s) && L.Enabled(s, L.Step(id, outcome))
    ensures RemovedFirst(L.Next(s, L.Step(id, outcome)))
  {
    var s' := L.Next(s, L.Step(id, outcome));
    RemovedOwn(s, id, outcome);
    forall j | j in s'.workers
      ensures s'.workers[j].job != L.ForceMark && s'.workers[j].at != L.Forcing && PastRemoval(s', s'.workers[j])
    {
      if j != id { assert PastRemoval(s, s.workers[j]); }
    }
  }

  lemma RemovedStep(s: L.State, e: L.Event)
    requires RemovedFirst(s) && L.Enabled(s, e) && (e.Find? ==> e.job != L.ForceMark)
    ensures RemovedFirst(L.Next(s, e))
  {
    var s' := L.Next(s, e);
    if e.Step? {
      RemovedWorker(s, e.w, e.outcome);
    } else if e.Create? {
      forall j | j in s'.workers ensures PastRemoval(s', s'.workers[j]) { assert PastRemoval(s, s.workers[j]); }
    } else {
      assert s'.containers == s.containers && s'.rows.Keys == s.rows.Keys;
      assert forall n :: n in s.rows ==> s'.rows[n].cleaned == s.rows[n].cleaned;
      forall j | j in s'.workers ensures PastRemoval(s', s'.workers[j]) {
        if j in s.workers { assert PastRemoval(s, s.workers[j]); }
      }
    }
  }

  /** Unless the forced marking runs, a row that says cleaned has no container left. */
  lemma {:induction false} CleanedIsRemoved(es: seq<L.Event>)
    requires Valid(L.Start(), es) && NoForce(es)
    ensures RemovedFirst(Run(L.Start(), es))
  {
    if es != [] {
      CleanedIsRemoved(es[..|es| - 1]);
      RemovedStep(Run(L.Start(), es[..|es| - 1]), es[|es| - 1]);
    }
  }

  // ---------------------------------------------------------------- the sweep and a session

  /** A sweep has read the row of `n` as expired and has not come to it yet. */
  ghost predicate SweepPending(s: L.State, n: string) {
    exists id, k :: id in s.workers && s.workers[id].job == L.Sweep
      && 0 <= k < |s.workers[id].todo| && s.workers[id].todo[k].name == n
  }

  ghost predicate TodoOk(s: L.State) {
    forall id, k :: id in s.workers && 0 <= k < |s.workers[id].todo| ==> s.workers[id].todo[k].name in s.rows
  }

  lemma {:induction false} TodoRun(es: seq<L.Event>)
    requires Valid(L.Start(), es)
    ensures TodoOk(Run(L.Start(), es))
  {
    if es != [] {
      TodoRun(es[..|es| - 1]);
      TodoStep(Run(L.Start(), es[..|es| - 1]), es[|es| - 1]);
    }
  }

  lemma TodoStep(s: L.State, e: L.Event)
    requires TodoOk(s) && L.Enabled(s, e)
    ensures TodoOk(L.Next(s, e))
  {
    FlagsStep(s, e);
    if e.Step? {
      TodoFrame(s, e.w, e.outcome);
    } else if !e.Find? {
      assert L.Next(s, e).workers == s.workers;
    }
  }

  /** A worker goes on with the copies that it has. */
  lemma TodoFrame(s: L.State, id: nat, outcome: L.Outcome)
    requires L.Enabled(s, L.Step(id, outcome))
    ensures var s' := L.Next(s, L.Step(id, outcome)); var todo := s.workers[id].todo;
      && s'.workers.Keys == s.workers.Keys
      && (forall j :: j in s.workers && j != id ==> s'.workers[j] == s.workers[j])
      && s'.workers[id].job == s.workers[id].job
      && (s'.workers[id].todo == todo || s'.workers[id].todo == todo[1..])
  {
    assert L.Next(s, L.Step(id, outcome)).workers == s.workers[id := L.Next(s, L.Step(id, outcome)).workers[id]];
  }

  /** A run of sweeps alone: finds and steps of sweeping workers. */
  ghost predicate Sweeps(s: L.State, es: seq<L.Event>)
    requires Valid(s, es)
    decreases |es|
  {
    es == []
    || (Sweeps(s, es[..|es| - 1])
        && var e := es[|es| - 1];
           (e.Find? && e.job == L.Sweep) || (e.Step? && Run(s, es[..|es| - 1]).workers[e.w].job == L.Sweep))
  }

  lemma {:induction false} SweepSpares(s: L.State, es: seq<L.Event>, n: string)
    requires Valid(s, es) && Sweeps(s, es)
    requires n in s.rows && s.rows[n].active && s.rows[n].expiresAt == None && !SweepPending(s, n)
    ensures var s' := Run(s, es);
      n in s'.rows && s'.rows[n].active && s'.rows[n].expiresAt == None && !SweepPending(s', n)
  {
    if es != [] {
      var s1, e := Run(s, es[..|es| - 1]), es[|es| - 1];
      SweepSpares(s, es[..|es| - 1], n);
      if e.Step? {
        assert s1.workers[e.w].todo[0].name != n;
      }
    }
  }

  /** The sweeping worker `id` goes through its first k copies. */
  lemma {:induction false} SweepReaches(s: L.State, id: nat, k: nat) returns (es: seq<L.Event>)
    requires TodoOk(s) && id in s.workers && s.workers[id].job == L.Sweep && k <= |s.workers[id].todo|
    ensures Valid(s, es) && Sweeps(s, es)
    ensures var s' := Run(s, es);
      && id in s'.workers && s'.workers[id].job == L.Sweep && s'.workers[id].todo == s.workers[id].todo[k..]
      && TodoOk(s')
      && s'.rows.Keys == s.rows.Keys
      && (forall n :: n in s.rows ==> s'.rows[n].cleaned == s.rows[n].cleaned)
      && (forall j :: 0 <= j < k ==>
            s.workers[id].todo[j].name in s.rows && !s'.rows[s.workers[id].todo[j].name].active)
  {
    es := [];
    if k > 0 {
      var before := SweepReaches(s, id, k - 1);
      var s1 := Run(s, before);
      assert s1.workers[id].todo[0] == s.workers[id].todo[k - 1];
      var e := L.Step(id, L.Ok);
      es := before + [e];
      assert es[..|es| - 1] == before;
      SweepsOne(s1, id);
      TodoStep(s1, e);
    }
  }

  lemma SweepsOne(s: L.State, id: nat)
    requires TodoOk(s) && id in s.workers && s.workers[id].job == L.Sweep && s.workers[id].todo != []
    ensures L.Enabled(s, L.Step(id, L.Ok))
    ensures var s' := L.Next(s, L.Step(id, L.Ok)); var n := s.workers[id].todo[0].name;
      && id in s'.workers && s'.workers[id].job == L.Sweep && s'.workers[id].todo == s.workers[id].todo[1..]
      && s'.rows.Keys == s.rows.Keys && !s'.rows[n].active
      && (forall m :: m in s.rows ==>
            s'.rows[m].cleaned == s.rows[m].cleaned && (s'.rows[m].active ==> s.rows[m].active))
  {
  }

  /** When the sweep is not one step: sweeps can deactivate a row that is active and has no expiry
      if and only if one of them has read it before and not yet written it. */
  lemma PendingIff(run: seq<L.Event>, n: string)
    requires Valid(L.Start(), run)
    requires var s := Run(L.Start(), run); n in s.rows && s.rows[n].active && s.rows[n].expiresAt == None
    ensures var s := Run(L.Start(), run);
      SweepPending(s, n) <==>
      exists es :: Valid(s, es) && Sweeps(s, es) && n in Run(s, es).rows && !Run(s, es).rows[n].active
  {
    var s := Run(L.Start(), run);
    TodoRun(run);
    if SweepPending(s, n) {
      var id, k :| id in s.workers && s.workers[id].job == L.Sweep
        && 0 <= k < |s.workers[id].todo| && s.workers[id].todo[k].name == n;
      var es := SweepReaches(s, id, k + 1);
    } else {
      forall es | Valid(s, es) && Sweeps(s, es) && n in Run(s, es).rows ensures Run(s, es).rows[n].active {
        SweepSpares(s, es, n);
      }
    }
  }

  /** In particular the row of a connected session whose expiry is disabled. */
  lemma SweepRaceIff(run: seq<L.Event>, i: nat)
    requires Valid(L.Start(), run) && Calm(run)
    requires var s := Run(L.Start(), run);
      i in s.sessions && s.sessions[i].pc == L.Proxying && s.sessions[i].cleared
      && s.sessions[i].name in s.rows && s.rows[s.sessions[i].name].active
    ensures var s := Run(L.Start(), run); var n := s.sessions[i].name;
      SweepPending(s, n) <==>
      exists es :: Valid(s, es) && Sweeps(s, es) && n in Run(s, es).rows && !Run(s, es).rows[n].active
  {
    SessionSafety(run, i);
    PendingIff(run, Run(L.Start(), run).sessions[i].name);
  }

  // ---------------------------------------------------------------- what the race costs the session

  /** A run of sweeps and of cleaners of inactive instances. */
  ghost predicate SweepsAndCleans(s: L.State, es: seq<L.Event>)
    requires Valid(s, es)
    decreases |es|
  {
    es == []
    || (SweepsAndCleans(s, es[..|es| - 1])
        && var e := es[|es| - 1];
           (e.Find? && Scheduled(e.job)) || (e.Step? && Scheduled(Run(s, es[..|es| - 1]).workers[e.w].job)))
  }

  predicate Scheduled(job: L.Job) {
    job == L.Sweep || job == L.CleanInactive
  }

  /** Whoever was found inactive is inactive for good. */
  ghost predicate InactiveTodo(s: L.State) {
    forall id, k :: id in s.workers && s.workers[id].job == L.CleanInactive && 0 <= k < |s.workers[id].todo| ==>
      s.workers[id].todo[k].name in s.rows && !s.rows[s.workers[id].todo[k].name].active
  }

  lemma InactiveStep(s: L.State, e: L.Event)
    requires InactiveTodo(s) && L.Enabled(s, e)
    ensures InactiveTodo(L.Next(s, e))
  {
    FlagsStep(s, e);
    if e.Step? {
      TodoFrame(s, e.w, e.outcome);
    } else if !e.Find? {
      assert L.Next(s, e).workers == s.workers;
    }
  }

  lemma {:induction false} InactiveRun(s: L.State, es: seq<L.Event>)
    requires InactiveTodo(s) && Valid(s, es)
    ensures InactiveTodo(Run(s, es))
  {
    if es != [] {
      InactiveRun(s, es[..|es| - 1]);
      InactiveStep(Run(s, es[..|es| - 1]), es[|es| - 1]);
    }
  }

  /** Active, without expiry, with its container, and no sweep on its way. */
  ghost predicate Spared(s: L.State, n: string) {
    n in s.rows && s.rows[n].active && s.rows[n].expiresAt == None && n in s.containers && !SweepPending(s, n)
  }

  lemma SparedFind(s: L.State, e: L.Event, n: string)
    requires Spared(s, n) && L.Enabled(s, e) && e.Find? && Scheduled(e.job)
    ensures Spared(L.Next(s, e), n)
  {
    assert forall k :: 0 <= k < |e.todo| && e.job == L.Sweep ==> e.todo[k].name != n;
  }

  lemma SparedStep(s: L.State, id: nat, outcome: L.Outcome, n: string)
    requires Spared(s, n) && InactiveTodo(s) && L.Enabled(s, L.Step(id, outcome)) && Scheduled(s.workers[id].job)
    ensures Spared(L.Next(s, L.Step(id, outcome)), n)
  {
    var s' := L.Next(s, L.Step(id, outcome));
    assert s.workers[id].todo[0].name != n;
    TodoFrame(s, id, outcome);
    forall j, k | j in s'.workers && s'.workers[j].job == L.Sweep && 0 <= k < |s'.workers[j].todo|
      ensures s'.workers[j].todo[k].name != n
    {
      var todo := s.workers[j].todo;
      assert s'.workers[j].todo == todo || (s'.workers[j].todo == todo[1..] && todo[1..][k] == todo[k + 1]);
    }
  }

  lemma {:induction false} SparedRun(s: L.State, es: seq<L.Event>, n: string)
    requires Spared(s, n) && InactiveTodo(s) && Valid(s, es) && SweepsAndCleans(s, es)
    ensures Spared(Run(s, es), n)
  {
    if es != [] {
      var s1, e := Run(s, es[..|es| - 1]), es[|es| - 1];
      SparedRun(s, es[..|es| - 1], n);
      InactiveRun(s, es[..|es| - 1]);
      if e.Find? { SparedFind(s1, e, n); } else { SparedStep(s1, e.w, e.outcome, n); }
    }
  }

  lemma {:induction false} SweepsAreScheduled(s: L.State, es: seq<L.Event>)
    requires Valid(s, es) && Sweeps(s, es)
    ensures SweepsAndCleans(s, es)
  {
    if es != [] { SweepsAreScheduled(s, es[..|es| - 1]); }
  }

  lemma ExtendScheduled(s: L.State, es: seq<L.Event>, e: L.Event)
    requires Valid(s, es) && SweepsAndCleans(s, es) && L.Enabled(Run(s, es), e)
    requires (e.Find? && Scheduled(e.job)) || (e.Step? && Scheduled(Run(s, es).workers[e.w].job))
    ensures Valid(s, es + [e]) && SweepsAndCleans(s, es + [e]) && Run(s, es + [e]) == L.Next(Run(s, es), e)
  {
    assert (es + [e])[..|es + [e]| - 1] == es;
  }

  /** A complete result of the cleaner's query that begins with `n`. */
  lemma QueryFrom(s: L.State, n: string) returns (todo: seq<L.Copy>)
    requires n in s.rows && L.Selects(L.CleanInactive, 0, s.rows[n])
    ensures L.Snapshot(s, L.CleanInactive, 0, todo) && todo != [] && todo[0].name == n
  {
    var others := set m | m in s.rows && m != n && L.Selects(L.CleanInactive, 0, s.rows[m]);
    var rest := Copies(s, others);
    todo := [L.Copy(n, s.rows[n])] + rest;
    forall m | m in s.rows && L.Selects(L.CleanInactive, 0, s.rows[m]) ensures L.Mentions(todo, m) {
      if m == n {
        assert todo[0].name == n;
      } else {
        assert m in others && L.Mentions(rest, m);
        var i :| 0 <= i < |rest| && rest[i].name == m;
        assert todo[i + 1].name == m;
      }
    }
  }

  lemma {:induction false} Copies(s: L.State, names: set<string>) returns (todo: seq<L.Copy>)
    requires names <= s.rows.Keys
    ensures forall i :: 0 <= i < |todo| ==> todo[i].name in names && todo[i].row == s.rows[todo[i].name]
    ensures forall i, j :: 0 <= i < j < |todo| ==> todo[i].name != todo[j].name
    ensures forall m :: m in names ==> L.Mentions(todo, m)
    decreases names
  {
    todo := [];
    if names != {} {
      var m :| m in names;
      var rest := Copies(s, names - {m});
      todo := rest + [L.Copy(m, s.rows[m])];
      forall x | x in names ensures L.Mentions(todo, x) {
        if x == m {
          assert todo[|rest|].name == x;
        } else {
          assert L.Mentions(rest, x);
          var i :| 0 <= i < |rest| && rest[i].name == x;
          assert todo[i].name == x;
        }
      }
    }
  }

  /** An idle worker can remove the container of an inactive instance. */
  lemma CleanerComes(s: L.State, before: seq<L.Event>, id: nat, n: string) returns (es: seq<L.Event>)
    requires Valid(s, before) && SweepsAndCleans(s, before)
    requires var s1 := Run(s, before);
      id in s1.workers && s1.workers[id].todo == [] && n in s1.rows && !s1.rows[n].active && !s1.rows[n].cleaned
    ensures Valid(s, es) && SweepsAndCleans(s, es) && n !in Run(s, es).containers
  {
    var s1 := Run(s, before);
    var todo := QueryFrom(s1, n);
    var find := L.Find(id, L.CleanInactive, 0, todo);
    ExtendScheduled(s, before, find);
    es := before + [find];
    ExtendScheduled(s, es, L.Step(id, L.Ok));
    es := es + [L.Step(id, L.Ok)];
    ExtendScheduled(s, es, L.Step(id, L.Ok));
    es := es + [L.Step(id, L.Ok)];
  }

  /** What the race costs: sweeps and cleaners together can remove the container under a session that
      is connected and has disabled its expiry if and only if a sweep had read its row before. */
  lemma SweepCostsContainerIff(run: seq<L.Event>, i: nat)
    requires Valid(L.Start(), run) && Calm(run)
    requires var s := Run(L.Start(), run);
      i in s.sessions && s.sessions[i].pc == L.Proxying && s.sessions[i].cleared
      && s.sessions[i].name in s.rows && s.rows[s.sessions[i].name].active && s.sessions[i].name in s.containers
    ensures var s := Run(L.Start(), run); var n := s.sessions[i].name;
      SweepPending(s, n) <==> exists es :: Valid(s, es) && SweepsAndCleans(s, es) && n !in Run(s, es).containers
  {
    var s := Run(L.Start(), run);
    var n := s.sessions[i].name;
    SessionSafety(run, i);
    if SweepPending(s, n) {
      TodoRun(run);
      FlagsRun(L.Start(), run);
      var id, k :| id in s.workers && s.workers[id].job == L.Sweep
        && 0 <= k < |s.workers[id].todo| && s.workers[id].todo[k].name == n;
      var sweep := SweepReaches(s, id, |s.workers[id].todo|);
      SweepsAreScheduled(s, sweep);
      assert !Run(s, sweep).rows[n].cleaned;
      var es := CleanerComes(s, sweep, id, n);
    } else {
      InactiveRun(L.Start(), run);
      forall es | Valid(s, es) && SweepsAndCleans(s, es) ensures n in Run(s, es).containers {
        SparedRun(s, es, n);
      }
    }
  }

  /** A session of a free name gets to its proxy phase, with its first write applied. */
  lemma Connects(s0: L.State, es: seq<L.Event>, i: nat, chan: nat, n: string) returns (all: seq<L.Event>)
    requires Valid(s0, es) && Calm(es)
    requires var s := Run(s0, es);
      n in s.rows && n !in s.manager.maps.entries && i !in s.sessions && i !in s.manager.calls
        && chan !in s.manager.made
    ensures Valid(s0, all) && Calm(all)
    ensures var s := Run(s0, es); var s' := Run(s0, all);
      && i in s'.sessions && s'.sessions[i].pc == L.Proxying && s'.sessions[i].cleared && s'.sessions[i].name == n
      && s'.workers == s.workers && s'.rows == s.rows[n := s.rows[n].(expiresAt := None)]
      && s'.containers == s.containers
  {
    all := Enters(s0, es, i, chan, n);
    Extend(s0, all, L.Clear(i, true));
    all := all + [L.Clear(i, true)];
    Extend(s0, all, L.Run(i));
    all := all + [L.Run(i)];
  }

  lemma Enters(s0: L.State, es: seq<L.Event>, i: nat, chan: nat, n: string) returns (all: seq<L.Event>)
    requires Valid(s0, es) && Calm(es)
    requires var s := Run(s0, es);
      n in s.rows && n !in s.manager.maps.entries && i !in s.sessions && i !in s.manager.calls
        && chan !in s.manager.made
    ensures Valid(s0, all) && Calm(all)
    ensures var s := Run(s0, es); var s' := Run(s0, all);
      && L.At(s', i, L.Entered) && s'.sessions[i].name == n && s'.sessions[i].copy.expiresAt == None
      && s'.workers == s.workers && s'.rows == s.rows && s'.containers == s.containers
  {
    var open := L.Open(i, chan, n, Run(s0, es).rows[n]);
    Extend(s0, es, open);
    Extend(s0, es + [open], L.Grant(i));
    all := es + [open] + [L.Grant(i)];
  }

  /** The race can be reached: a session opens between a sweep's find and its write. */
  lemma SweepRaceReachable(n: string, expires: int) returns (es: seq<L.Event>)
    ensures Valid(L.Start(), es) && Calm(es)
    ensures var s := Run(L.Start(), es);
      && 0 in s.sessions && s.sessions[0].pc == L.Proxying && s.sessions[0].cleared && s.sessions[0].name == n
      && n in s.rows && s.rows[n].active && n in s.containers && SweepPending(s, n)
  {
    var found := L.Copy(n, L.Row(true, false, Some(expires)));
    assert [found][0].name == n && L.Mentions([found], n);
    es := RunOf(L.Start(), L.Create(n, expires), L.Find(0, L.Sweep, expires + 1, [found]));
    es := Connects(L.Start(), es, 0, 0, n);
    assert Run(L.Start(), es).workers[0].todo[0].name == n;
  }

  lemma RunOf(s: L.State, e: L.Event, f: L.Event) returns (es: seq<L.Event>)
    requires L.Enabled(s, e) && L.Enabled(L.Next(s, e), f)
    ensures Valid(s, es) && es == [e, f] && Run(s, es) == L.Next(L.Next(s, e), f)
  {
    Extend(s, [], e);
    Extend(s, [] + [e], f);
    es := [] + [e] + [f];
  }

  // ---------------------------------------------------------------- the forced marking

  /** Only worker `id` runs. */
  ghost predicate Alone(es: seq<L.Event>, id: nat) {
    forall i :: 0 <= i < |es| ==> es[i].Step? && es[i].w == id
  }

  lemma WorkerContainers(s: L.State, id: nat, outcome: L.Outcome)
    requires L.Enabled(s, L.Step(id, outcome))
    ensures L.Next(s, L.Step(id, outcome)).containers <= s.containers
  {
  }

  lemma {:induction false} GoneStaysGone(s: L.State, es: seq<L.Event>, id: nat, n: string)
    requires Valid(s, es) && Alone(es, id) && n !in s.containers
    ensures n !in Run(s, es).containers
  {
    if es != [] {
      GoneStaysGone(s, es[..|es| - 1], id, n);
      WorkerContainers(Run(s, es[..|es| - 1]), es[|es| - 1].w, es[|es| - 1].outcome);
    }
  }

  /** The forced marking can leave a row that says cleaned beside a container that is still
      there if and only if the container exists when it comes to the row. */
  lemma ForceMarkIff(s: L.State, id: nat, n: string)
    requires id in s.workers && s.workers[id].job == L.ForceMark && s.workers[id].at == L.Begin
    requires s.workers[id].todo != [] && s.workers[id].todo[0].name == n && n in s.rows
    ensures n in s.containers <==>
      exists es :: Valid(s, es) && Alone(es, id)
        && n in Run(s, es).rows && Run(s, es).rows[n].cleaned && n in Run(s, es).containers
  {
    if n in s.containers {
      var es := RunOf(s, L.Step(id, L.Ok), L.Step(id, L.Failed(false)));
      Extend(s, es, L.Step(id, L.Ok));
      var all := es + [L.Step(id, L.Ok)];
      assert Run(s, all).rows[n].cleaned && n in Run(s, all).containers;
    } else {
      forall es | Valid(s, es) && Alone(es, id) ensures n !in Run(s, es).containers {
        GoneStaysGone(s, es, id, n);
      }
    }
  }

  // ---------------------------------------------------------------- one round of a worker

  predicate Applied(outcome: L.Outcome) {
    outcome == L.Ok || outcome == L.Failed(true)
  }

  /** The row of `n` has become inactive and cleaned, or not; no other row or column is written. */
  ghost predicate Marked(s: L.State, s': L.State, n: string, marked: bool)
    requires n in s.rows
  {
    s'.rows == if marked then s.rows[n := L.Row(false, true, s.rows[n].expiresAt)] else s.rows
  }

  /** The container of `n` is gone, or not; no other is touched. */
  ghost predicate Removed(s: L.State, s': L.State, n: string, removed: bool) {
    s'.containers == if removed then s.containers - {n} else s.containers
  }

  /** Worker `id` is in the row of `n`. */
  ghost predicate InRow(s: L.State, id: nat, n: string, at: L.Place) {
    id in s.workers && s.workers[id].at == at && s.workers[id].todo != [] && s.workers[id].todo[0].name == n
    && n in s.rows
  }

  /** Where the return of cleanInstance leaves a worker. */
  function Back(w: L.Worker): L.Worker
    requires w.todo != []
  {
    if w.job == L.ForceMark then w.(at := L.Forcing) else w.(todo := w.todo[1..], at := L.Begin)
  }

  lemma RemovalPart(s: L.State, id: nat, n: string, removal: L.Outcome) returns (es: seq<L.Event>)
    requires InRow(s, id, n, L.Begin) && s.workers[id].job != L.Sweep && (removal.NotFound? ==> n !in s.containers)
    ensures Valid(s, es) && Alone(es, id)
    ensures var s' := Run(s, es); var w := s.workers[id];
      && s'.rows == s.rows && Removed(s, s', n, Applied(removal))
      && s'.workers == s.workers[id := if removal.Failed? then Back(w) else w.(at := L.RemovingImage)]
  {
    es := RunOf(s, L.Step(id, L.Ok), L.Step(id, removal));
  }

  lemma SingleStep(s: L.State, e: L.Event)
    requires L.Enabled(s, e)
    ensures Valid(s, [e]) && Run(s, [e]) == L.Next(s, e)
  {
    Extend(s, [], e);
    assert [] + [e] == [e];
  }

  lemma MarkingStep(s: L.State, id: nat, n: string, image: L.Outcome, update: L.Outcome)
    requires InRow(s, id, n, L.RemovingImage) && s.workers[id].job != L.Sweep && !update.NotFound? && !image.Failed?
    ensures L.Enabled(s, L.Step(id, image)) && L.Enabled(L.Next(s, L.Step(id, image)), L.Step(id, update))
    ensures var s' := L.Next(L.Next(s, L.Step(id, image)), L.Step(id, update));
      && s'.workers == s.workers[id := Back(s.workers[id])] && s'.containers == s.containers
      && Marked(s, s', n, Applied(update))
  {
    var s1 := L.Next(s, L.Step(id, image));
    assert s1 == s.(workers := s.workers[id := s.workers[id].(at := L.Marking)]);
    assert s1.workers[id := Back(s1.workers[id])] == s.workers[id := Back(s.workers[id])];
  }

  lemma ImagePart(s: L.State, id: nat, n: string, image: L.Outcome, update: L.Outcome) returns (es: seq<L.Event>)
    requires InRow(s, id, n, L.RemovingImage) && s.workers[id].job != L.Sweep && !update.NotFound?
    ensures Valid(s, es) && Alone(es, id)
    ensures var s' := Run(s, es);
      && s'.workers == s.workers[id := Back(s.workers[id])] && s'.containers == s.containers
      && Marked(s, s', n, !image.Failed? && Applied(update))
  {
    if image.Failed? {
      es := [L.Step(id, image)];
      SingleStep(s, L.Step(id, image));
    } else {
      MarkingStep(s, id, n, image, update);
      es := RunOf(s, L.Step(id, image), L.Step(id, update));
    }
  }

  lemma {:induction false} Concat(s: L.State, es: seq<L.Event>, fs: seq<L.Event>)
    requires Valid(s, es) && Valid(Run(s, es), fs)
    ensures Valid(s, es + fs) && Run(s, es + fs) == Run(Run(s, es), fs)
  {
    if fs == [] {
      assert es + fs == es;
    } else {
      Concat(s, es, fs[..|fs| - 1]);
      Extend(s, es + fs[..|fs| - 1], fs[|fs| - 1]);
      assert es + fs == es + fs[..|fs| - 1] + [fs[|fs| - 1]];
    }
  }

  /** cleanInstance, as a worker steps through it: whatever the calls answer, it returns. The row is
      marked exactly if neither removal failed and the update got through; an answered removal
      leaves no container. */
  lemma CleaningReturns(s: L.State, id: nat, n: string, removal: L.Outcome, image: L.Outcome, update: L.Outcome)
      returns (es: seq<L.Event>)
    requires InRow(s, id, n, L.Begin) && s.workers[id].job != L.Sweep
    requires (removal.NotFound? ==> n !in s.containers) && !update.NotFound?
    ensures Valid(s, es) && Alone(es, id)
    ensures var s' := Run(s, es);
      && s'.workers == s.workers[id := Back(s.workers[id])]
      && Marked(s, s', n, !removal.Failed? && !image.Failed? && Applied(update))
      && Removed(s, s', n, Applied(removal))
  {
    es := RemovalPart(s, id, n, removal);
    if !removal.Failed? {
      var rest := ImagePart(Run(s, es), id, n, image, update);
      Concat(s, es, rest);
      es := es + rest;
    }
  }

  /** A round of the forced marking: whatever becomes of the cleaning, the row is marked if its own
      update gets through, and the worker moves on. */
  lemma ForcedRound(s: L.State, id: nat, n: string, removal: L.Outcome, image: L.Outcome, update: L.Outcome,
                    last: L.Outcome)
      returns (es: seq<L.Event>)
    requires InRow(s, id, n, L.Begin) && s.workers[id].job == L.ForceMark
    requires (removal.NotFound? ==> n !in s.containers) && !update.NotFound? && !last.NotFound?
    ensures Valid(s, es) && Alone(es, id)
    ensures var s' := Run(s, es); var w := s.workers[id];
      && s'.workers == s.workers[id := w.(todo := w.todo[1..], at := L.Begin)]
      && Marked(s, s', n, Applied(last) || (!removal.Failed? && !image.Failed? && Applied(update)))
      && Removed(s, s', n, Applied(removal))
  {
    var cleaning := CleaningReturns(s, id, n, removal, image, update);
    Extend(s, cleaning, L.Step(id, last));
    es := cleaning + [L.Step(id, last)];
  }

  // ---------------------------------------------------------------- whole jobs

  const CLEANING := {L.CleanInactive, L.CleanLeftover, L.SpecClean}

  /** An idle worker can take the query of any job at any time, and gets what it selects. */
  lemma QueryIsPossible(s: L.State, id: nat, job: L.Job, now: int) returns (todo: seq<L.Copy>)
    requires id in s.workers ==> s.workers[id].todo == []
    ensures L.Enabled(s, L.Find(id, job, now, todo))
    ensures forall n :: n in s.rows ==> (L.Mentions(todo, n) <==> L.Selects(job, now, s.rows[n]))
    ensures L.Next(s, L.Find(id, job, now, todo)) == s.(workers := s.workers[id := L.Worker(job, todo, L.Begin)])
  {
    var names := set n | n in s.rows && L.Selects(job, now, s.rows[n]);
    todo := Copies(s, names);
    assert forall n :: n in s.rows && L.Selects(job, now, s.rows[n]) ==> n in names;
  }

  ghost predicate Clean(s: L.State, n: string) {
    n in s.rows && s.rows[n].cleaned && !s.rows[n].active && n !in s.containers
  }

  lemma CleanStays(s: L.State, es: seq<L.Event>, id: nat, n: string)
    requires Valid(s, es) && Alone(es, id) && Clean(s, n)
    ensures Clean(Run(s, es), n)
  {
    FlagsRun(s, es);
    GoneStaysGone(s, es, id, n);
  }

  lemma {:induction false} WorkThrough(s: L.State, id: nat) returns (es: seq<L.Event>)
    requires id in s.workers && s.workers[id].at == L.Begin && s.workers[id].job in CLEANING
    requires forall k :: 0 <= k < |s.workers[id].todo| ==> s.workers[id].todo[k].name in s.rows
    ensures Valid(s, es) && Alone(es, id)
    ensures forall k :: 0 <= k < |s.workers[id].todo| ==> Clean(Run(s, es), s.workers[id].todo[k].name)
    decreases |s.workers[id].todo|
  {
    es := [];
    var todo := s.workers[id].todo;
    if todo != [] {
      var first := CleaningReturns(s, id, todo[0].name, L.Ok, L.Ok, L.Ok);
      var s1 := Run(s, first);
      var rest := WorkThrough(s1, id);
      Concat(s, first, rest);
      es := first + rest;
      CleanStays(s1, rest, id, todo[0].name);
      forall k | 0 <= k < |todo| ensures Clean(Run(s, es), todo[k].name) {
        if k > 0 { assert todo[k] == s1.workers[id].todo[k - 1]; }
      }
    }
  }

  /** A cleaning job that is answered gets every row clean that its query selects. */
  lemma JobCompletes(s: L.State, id: nat, job: L.Job, now: int) returns (es: seq<L.Event>)
    requires (id in s.workers ==> s.workers[id].todo == []) && job in CLEANING
    ensures Valid(s, es)
    ensures forall n :: n in s.rows && L.Selects(job, now, s.rows[n]) ==> Clean(Run(s, es), n)
  {
    var todo := QueryIsPossible(s, id, job, now);
    var find := L.Find(id, job, now, todo);
    SingleStep(s, find);
    var rest := WorkThrough(L.Next(s, find), id);
    Concat(s, [find], rest);
    es := [find] + rest;
    forall n | n in s.rows && L.Selects(job, now, s.rows[n]) ensures Clean(Run(s, es), n) {
      assert L.Mentions(todo, n);
    }
  }
}
