/** The manager of ExpireManager runs on the clock of IdleClock: whatever its users do between the
    ticks, in whatever order, is there the events that it should be, and a tick launches just those
    whom it fires. So the idle bounds proved there hold for the manager. */
module ManagerClock {
  import opened ExpireManager
  import opened ExpireMaps
  import opened IC = IdleClock

  /** What is done to a manager, each under its lock, or to a token. */
  datatype Deed =
    | Expiring(now: int)
    | Acquiring(name: string, onExpire: Callback, now: int)
    | Releasing(token: Token)
    | Removing(name: string)
    | Updating(token: Token, now: int)

  function TickOf(d: Deed): seq<int> {
    if d.Expiring? then [d.now] else []
  }

  function TicksOf(deeds: seq<Deed>): seq<int> {
    if deeds == [] then [] else TicksOf(deeds[..|deeds| - 1]) + TickOf(deeds[|deeds| - 1])
  }

  /** The stamps of the registered tokens. */
  ghost function Stamps(m: Manager): map<Token, int>
    reads m`tokens, m.tokens.Keys
  {
    map t | t in m.tokens :: t.unix
  }

  /** The onExpire of each of these has been launched. */
  ghost predicate AllLaunched(launched: seq<Entry<Token>>, fired: set<Token>) {
    forall t :: t in fired ==> exists i :: 0 <= i < |launched| && launched[i].token == t
  }

  lemma AllLaunchedMore(launched: seq<Entry<Token>>, more: seq<Entry<Token>>, fired: set<Token>)
    requires AllLaunched(launched, fired)
    ensures AllLaunched(launched + more, fired)
  {
    forall t | t in fired ensures exists i :: 0 <= i < |launched + more| && (launched + more)[i].token == t {
      var i :| 0 <= i < |launched| && launched[i].token == t;
      assert (launched + more)[i].token == t;
    }
  }

  lemma RunOne<T>(s: State<T>, e: IC.Event<T>, expireLimit: int)
    ensures IC.Run(s, [e], expireLimit) == IC.Next(s, e, expireLimit)
    ensures TickTimes([e]) == if e.Tick? then [e.now] else []
  {
    assert [e][1..] == [];
  }

  lemma RunTwo<T>(s: State<T>, e: IC.Event<T>, f: IC.Event<T>, expireLimit: int)
    ensures IC.Run(s, [e, f], expireLimit) == IC.Next(IC.Next(s, e, expireLimit), f, expireLimit)
    ensures !e.Tick? && !f.Tick? ==> TickTimes([e, f]) == []
  {
    assert [e] + [f] == [e, f];
    RunConcat(s, [e], [f], expireLimit);
    RunOne(s, e, expireLimit);
    RunOne(IC.Next(s, e, expireLimit), f, expireLimit);
  }

  /** The clock has the stamps, and whom it fired has been launched since `since`. */
  ghost predicate InStep(m: Manager, clock: State<Token>, since: nat)
    reads m, m.channels, m.tokens.Keys
  {
    m.Valid() && clock.stamp == Stamps(m) && since <= |m.launched| && AllLaunched(m.launched[since..], clock.fired)
  }

  /** The entry that goes when `name` is taken over or removed. */
  function Evicted(entries: map<string, Entry<Token>>, name: string): seq<IC.Event<Token>> {
    if name in entries then [IC.Drop(entries[name].token)] else []
  }

  /** `events` is what the deed `d` means for the clock of a manager with the given entries; `made`
      is the token of an acquisition. */
  predicate Means(d: Deed, entries: map<string, Entry<Token>>, made: Token?, events: seq<IC.Event<Token>>) {
    match d
    case Expiring(now) => events == [IC.Tick(now)]
    case Acquiring(name, _, now) => made != null && events == Evicted(entries, name) + [IC.Register(made, now)]
    case Releasing(token) => events == [IC.Drop(token)]
    case Removing(name) => events == Evicted(entries, name)
    case Updating(token, now) => events == [IC.Update(token, now)]
  }

  /** The deed leaves the token `t` of the name `n` alone. */
  predicate Spares(d: Deed, t: Token, n: string) {
    match d
    case Expiring(_) => true
    case Acquiring(name, _, _) => name != n
    case Releasing(token) => token != t
    case Removing(name) => name != n
    case Updating(token, _) => token != t
  }

  /** An expiry launches exactly those whom the tick fires. */
  method Expiry(m: Manager, now: int, ghost clock: State<Token>, ghost since: nat) returns (ghost after: State<Token>)
    requires InStep(m, clock, since)
    modifies m`launched
    ensures InStep(m, after, since) && after == IC.Next(clock, IC.Tick(now), m.expireLimit)
    ensures old(m.launched) <= m.launched
    ensures forall i :: |old(m.launched)| <= i < |m.launched| ==>
      m.launched[i].token in m.tokens && Fires(m.launched[i].token.unix, now, m.expireLimit)
    ensures forall t :: t in m.tokens && Fires(t.unix, now, m.expireLimit) ==>
      exists i :: |old(m.launched)| <= i < |m.launched| && m.launched[i].token == t
  {
    ghost var before := m.launched;
    ghost var fired := m.Expire(now);
    after := IC.Next(clock, IC.Tick(now), m.expireLimit);
    AllLaunchedMore(before[since..], fired, clock.fired);
    assert m.launched[since..] == before[since..] + fired;
    forall i | |before| <= i < |m.launched|
      ensures m.launched[i].token in m.tokens && Fires(m.launched[i].token.unix, now, m.expireLimit)
    {
      assert m.launched[i] == fired[i - |before|];
      assert m.launched[i] in fired;
    }
    forall t | t in m.tokens && Fires(t.unix, now, m.expireLimit)
      ensures exists i :: |before| <= i < |m.launched| && m.launched[i].token == t
    {
      var e := m.entries[m.tokens[t]];
      assert e in m.entries.Values && e in fired;
      var i :| 0 <= i < |fired| && fired[i] == e;
      assert m.launched[|before| + i] == e;
    }
  }

  method Acquisition(m: Manager, name: string, onExpire: Callback, now: int, ghost clock: State<Token>,
                     ghost since: nat)
    returns (token: Token, ghost events: seq<IC.Event<Token>>, ghost after: State<Token>)
    requires InStep(m, clock, since)
    modifies m
    ensures InStep(m, after, since) && m.channels >= old(m.channels) && fresh(m.channels - old(m.channels))
    ensures after == IC.Run(clock, events, m.expireLimit) && TickTimes(events) == []
    ensures fresh(token) && events == Evicted(old(m.entries), name) + [IC.Register(token, now)]
    ensures m.launched == old(m.launched) + if name in old(m.entries) then [old(m.entries)[name]] else []
    ensures forall t :: t in old(m.tokens) && old(m.tokens)[t] != name ==>
      Untouched(events, t) && t in m.tokens && m.tokens[t] == old(m.tokens)[t]
  {
    ghost var before := m.View();
    var blocker;
    token, blocker := m.Acquire(name, onExpire, now);
    OthersStay(before, m.View(), name, Entry(token, onExpire), blocker, now);
    events, after := Evicted(before.entries, name) + [IC.Register(token, now)], clock;
    if name in before.entries {
      after := IC.Next(after, IC.Drop(before.entries[name].token), m.expireLimit);
      RunTwo(clock, events[0], events[1], m.expireLimit);
    } else {
      RunOne(clock, events[0], m.expireLimit);
    }
    after := IC.Next(after, IC.Register(token, now), m.expireLimit);
    ghost var added := if name in before.entries then [before.entries[name]] else [];
    assert m.launched[since..] == before.launched[since..] + added;
    AllLaunchedMore(before.launched[since..], added, clock.fired);
    assert after.stamp.Keys == m.tokens.Keys;
    assert forall t :: t in m.tokens ==> after.stamp[t] == t.unix;
    assert after.stamp == Stamps(m);
  }

  lemma OthersStay(m: Maps<Token, Channel>, m': Maps<Token, Channel>, name: string, e: Entry<Token>, c: Channel?,
                   now: int)
    requires Consistent(m) && e.token !in m.tokens
    requires name !in m.entries ==> m' == Registered(m, name, e)
    requires name in m.entries ==> c != null && m' == Superseded(m, name, e, c)
    ensures m'.tokens == (if name in m.entries then m.tokens - {m.entries[name].token} else m.tokens)[e.token := name]
    ensures forall t :: t in m.tokens && m.tokens[t] != name ==>
      Untouched(Evicted(m.entries, name) + [IC.Register(e.token, now)], t) && t in m'.tokens
        && m'.tokens[t] == m.tokens[t]
  {
  }

  method Releasal(m: Manager, token: Token, ghost clock: State<Token>, ghost since: nat)
    returns (ghost after: State<Token>)
    requires InStep(m, clock, since)
    modifies m, m.channels
    ensures InStep(m, after, since) && m.channels == old(m.channels) && m.launched == old(m.launched)
    ensures after == IC.Next(clock, IC.Drop(token), m.expireLimit)
    ensures forall t :: t in old(m.tokens) && t != token ==> t in m.tokens && m.tokens[t] == old(m.tokens)[t]
  {
    m.Release(token);
    after := IC.Next(clock, IC.Drop(token), m.expireLimit);
    assert after.stamp.Keys == m.tokens.Keys;
    assert forall t :: t in m.tokens ==> after.stamp[t] == t.unix;
    assert after.stamp == Stamps(m);
  }

  method Removal(m: Manager, name: string, ghost clock: State<Token>, ghost since: nat)
    returns (ghost events: seq<IC.Event<Token>>, ghost after: State<Token>)
    requires InStep(m, clock, since)
    modifies m
    ensures InStep(m, after, since) && m.channels == old(m.channels)
    ensures after == IC.Run(clock, events, m.expireLimit) && TickTimes(events) == []
    ensures events == Evicted(old(m.entries), name)
    ensures m.launched == old(m.launched) + if name in old(m.entries) then [old(m.entries)[name]] else []
    ensures forall t :: t in old(m.tokens) && old(m.tokens)[t] != name ==>
      Untouched(events, t) && t in m.tokens && m.tokens[t] == old(m.tokens)[t]
  {
    ghost var before := m.View();
    m.ExpireAndRemove(name);
    events, after := Evicted(before.entries, name), clock;
    if name in before.entries {
      after := IC.Next(clock, events[0], m.expireLimit);
      RunOne(clock, events[0], m.expireLimit);
    }
    ghost var added := if name in before.entries then [before.entries[name]] else [];
    assert m.launched[since..] == before.launched[since..] + added;
    AllLaunchedMore(before.launched[since..], added, clock.fired);
    assert after.stamp == Stamps(m);
  }

  method Refresh(m: Manager, token: Token, now: int, ghost clock: State<Token>, ghost since: nat)
    returns (ghost after: State<Token>)
    requires InStep(m, clock, since)
    modifies token
    ensures InStep(m, after, since) && after == IC.Next(clock, IC.Update(token, now), m.expireLimit)
  {
    token.Update(now);
    after := IC.Next(clock, IC.Update(token, now), m.expireLimit);
    assert after.stamp == Stamps(m);
  }

  /** What a deed leaves to those it spares: their place, their stamp, and no launch but a tick's. */
  ghost predicate Undisturbed(t: Token, n: string, tokens: map<Token, string>, events: seq<IC.Event<Token>>,
                              added: seq<Entry<Token>>, fired: set<Token>)
  {
    && Untouched(events, t) && t in tokens && tokens[t] == n
    && forall i :: 0 <= i < |added| && added[i].token == t ==> t in fired
  }

  ghost predicate SparedAre(d: Deed, before: map<Token, string>, tokens: map<Token, string>,
                            events: seq<IC.Event<Token>>,
                            added: seq<Entry<Token>>, fired: set<Token>)
  {
    forall t :: t in before && Spares(d, t, before[t]) ==> Undisturbed(t, before[t], tokens, events, added, fired)
  }

  lemma EvictionSpares(d: Deed, m: Maps<Token, Channel>, name: string, tokens: map<Token, string>,
                       events: seq<IC.Event<Token>>, added: seq<Entry<Token>>, fired: set<Token>)
    requires Consistent(m) && (d.Acquiring? || d.Removing?) && d.name == name
    requires added == if name in m.entries then [m.entries[name]] else []
    requires forall t :: t in m.tokens && m.tokens[t] != name ==>
      Untouched(events, t) && t in tokens && tokens[t] == m.tokens[t]
    ensures SparedAre(d, m.tokens, tokens, events, added, fired)
  {
  }

  lemma TickSpares(d: Deed, tokens: map<Token, string>, added: seq<Entry<Token>>, fired: set<Token>)
    requires d.Expiring? && forall i :: 0 <= i < |added| ==> added[i].token in fired
    ensures SparedAre(d, tokens, tokens, [IC.Tick(d.now)], added, fired)
  {
  }

  lemma OneSpares(d: Deed, before: map<Token, string>, tokens: map<Token, string>, e: IC.Event<Token>,
                  fired: set<Token>)
    requires (d.Releasing? && e == IC.Drop(d.token)) || (d.Updating? && e == IC.Update(d.token, d.now))
    requires forall t :: t in before && t != d.token ==> t in tokens && tokens[t] == before[t]
    ensures SparedAre(d, before, tokens, [e], [], fired)
  {
  }

  method Perform(m: Manager, d: Deed, ghost clock: State<Token>, ghost since: nat)
    returns (ghost made: Token?, ghost events: seq<IC.Event<Token>>, ghost after: State<Token>)
    requires InStep(m, clock, since)
    modifies m, m.channels, if d.Updating? then {d.token} else {}
    ensures InStep(m, after, since) && m.channels >= old(m.channels) && fresh(m.channels - old(m.channels))
    ensures after == IC.Run(clock, events, m.expireLimit)
    ensures Means(d, old(m.entries), made, events) && TickTimes(events) == TickOf(d)
    ensures old(m.launched) <= m.launched
    ensures SparedAre(d, old(m.tokens), m.tokens, events, m.launched[|old(m.launched)|..], after.fired)
  {
    made := null;
    ghost var before := m.View();
    match d
    case Expiring(now) =>
      after := Expiry(m, now, clock, since);
      events := [IC.Tick(now)];
      RunOne(clock, events[0], m.expireLimit);
      TickSpares(d, m.tokens, m.launched[|before.launched|..], after.fired);
    case Acquiring(name, onExpire, now) =>
      var token;
      token, events, after := Acquisition(m, name, onExpire, now, clock, since);
      made := token;
      EvictionSpares(d, before, name, m.tokens, events, m.launched[|before.launched|..], after.fired);
    case Releasing(token) =>
      after := Releasal(m, token, clock, since);
      events := [IC.Drop(token)];
      RunOne(clock, events[0], m.expireLimit);
      assert m.launched[|before.launched|..] == [];
      OneSpares(d, before.tokens, m.tokens, events[0], after.fired);
    case Removing(name) =>
      events, after := Removal(m, name, clock, since);
      EvictionSpares(d, before, name, m.tokens, events, m.launched[|before.launched|..], after.fired);
    case Updating(token, now) =>
      after := Refresh(m, token, now, clock, since);
      events := [IC.Update(token, now)];
      RunOne(clock, events[0], m.expireLimit);
      assert m.launched[|before.launched|..] == [];
      OneSpares(d, before.tokens, m.tokens, events[0], after.fired);
  }

  ghost predicate AllSpare(deeds: seq<Deed>, t: Token, n: string) {
    forall k :: 0 <= k < |deeds| ==> Spares(deeds[k], t, n)
  }

  ghost predicate AllSparedAre(deeds: seq<Deed>, before: map<Token, string>, tokens: map<Token, string>,
                               events: seq<IC.Event<Token>>, added: seq<Entry<Token>>, fired: set<Token>)
  {
    forall t :: t in before && AllSpare(deeds, t, before[t]) ==> Undisturbed(t, before[t], tokens, events, added, fired)
  }

  /** A life of the manager: ticks, and anything that its users do between them, in any order. It
      is a run of IdleClock with the same ticks; all whom that fires have been launched; and to a
      token that the deeds spare, nothing else happens. */
  method Live(m: Manager, deeds: seq<Deed>, ghost clock: State<Token>, ghost since: nat)
    returns (ghost events: seq<IC.Event<Token>>, ghost after: State<Token>)
    requires InStep(m, clock, since)
    modifies m, m.channels, set d | d in deeds && d.Updating? :: d.token
    ensures InStep(m, after, since)
    ensures after == IC.Run(clock, events, m.expireLimit) && TickTimes(events) == TicksOf(deeds)
    ensures old(m.launched) <= m.launched
    ensures AllSparedAre(deeds, old(m.tokens), m.tokens, events, m.launched[|old(m.launched)|..], after.fired)
  {
    events, after := [], clock;
    for k := 0 to |deeds|
      invariant InStep(m, after, since) && m.channels >= old(m.channels) && fresh(m.channels - old(m.channels))
      invariant after == IC.Run(clock, events, m.expireLimit) && TickTimes(events) == TicksOf(deeds[..k])
      invariant old(m.launched) <= m.launched
      invariant AllSparedAre(deeds[..k], old(m.tokens), m.tokens, events, m.launched[|old(m.launched)|..], after.fired)
    {
      ghost var launched, done, fired, tokens := m.launched, events, after.fired, m.tokens;
      ghost var made, more;
      made, more, after := Perform(m, deeds[k], after, since);
      RunConcat(clock, done, more, m.expireLimit);
      FiredGrows(IC.Run(clock, done, m.expireLimit), more, m.expireLimit);
      events := done + more;
      assert deeds[..k + 1] == deeds[..k] + [deeds[k]];
      TicksSnoc(deeds[..k], deeds[k]);
      SparedJoin(deeds[..k], deeds[k], old(m.tokens), tokens, m.tokens, done, more, launched[|old(m.launched)|..],
                 m.launched[|launched|..], fired, after.fired);
      assert m.launched[|old(m.launched)|..] == launched[|old(m.launched)|..] + m.launched[|launched|..];
    }
    assert deeds[..|deeds|] == deeds;
  }

  lemma TicksSnoc(deeds: seq<Deed>, d: Deed)
    ensures TicksOf(deeds + [d]) == TicksOf(deeds) + TickOf(d)
  {
    assert (deeds + [d])[..|deeds + [d]| - 1] == deeds;
  }

  lemma FiredGrows<T>(s: State<T>, es: seq<IC.Event<T>>, expireLimit: int)
    ensures s.fired <= IC.Run(s, es, expireLimit).fired
  {
    forall t | t in s.fired ensures t in IC.Run(s, es, expireLimit).fired {
      FiredStays(s, es, expireLimit, t);
    }
  }

  lemma SparedJoin(deeds: seq<Deed>, d: Deed, tokens0: map<Token, string>, tokens1: map<Token, string>,
                   tokens2: map<Token, string>,
                   es1: seq<IC.Event<Token>>, es2: seq<IC.Event<Token>>,
                   added1: seq<Entry<Token>>, added2: seq<Entry<Token>>, fired1: set<Token>, fired2: set<Token>)
    requires AllSparedAre(deeds, tokens0, tokens1, es1, added1, fired1)
      && SparedAre(d, tokens1, tokens2, es2, added2, fired2)
    requires fired1 <= fired2
    ensures AllSparedAre(deeds + [d], tokens0, tokens2, es1 + es2, added1 + added2, fired2)
  {
    forall t | t in tokens0 && AllSpare(deeds + [d], t, tokens0[t])
      ensures Undisturbed(t, tokens0[t], tokens2, es1 + es2, added1 + added2, fired2)
    {
      assert forall k :: 0 <= k < |deeds| ==> (deeds + [d])[k] == deeds[k];
      assert (deeds + [d])[|deeds|] == d;
      assert Undisturbed(t, tokens0[t], tokens1, es1, added1, fired1);
      assert Undisturbed(t, tokens0[t], tokens2, es2, added2, fired2);
    }
  }

  // ---------------------------------------------------------------- the idle bounds, for the manager

  /** The first tick at or after `from`. */
  function FirstTick(deeds: seq<Deed>, from: int): (k: nat)
    ensures k <= |deeds|
    ensures k < |deeds| ==> deeds[k].Expiring? && deeds[k].now >= from
    ensures forall j :: 0 <= j < k && deeds[j].Expiring? ==> deeds[j].now < from
  {
    if deeds == [] || (deeds[0].Expiring? && deeds[0].now >= from) then 0 else 1 + FirstTick(deeds[1..], from)
  }

  lemma {:induction false} TicksPrefix(deeds: seq<Deed>, k: nat)
    requires k <= |deeds|
    ensures TicksOf(deeds[..k]) <= TicksOf(deeds)
    decreases |deeds|
  {
    if k == |deeds| {
      assert deeds[..k] == deeds;
    } else {
      TicksPrefix(deeds[..|deeds| - 1], k);
      assert deeds[..|deeds| - 1][..k] == deeds[..k];
    }
  }

  lemma {:induction false} TickOfDeed(deeds: seq<Deed>, x: int)
    requires x in TicksOf(deeds)
    ensures exists k :: 0 <= k < |deeds| && deeds[k] == Expiring(x)
    decreases |deeds|
  {
    var before := deeds[..|deeds| - 1];
    if x in TicksOf(before) {
      TickOfDeed(before, x);
      var k :| 0 <= k < |before| && before[k] == Expiring(x);
      assert deeds[k] == Expiring(x);
    } else {
      assert deeds[|deeds| - 1] == Expiring(x);
    }
  }

  /** With on-time ticks that begin before `from + checkEvery` and go on to `from`, the first one
      at or after `from` comes before `from + checkEvery`. */
  lemma FirstTickInTime(deeds: seq<Deed>, checkEvery: int, from: int)
    requires OnTime(TicksOf(deeds), checkEvery) && TicksOf(deeds) != []
    requires TicksOf(deeds)[0] < from + checkEvery && from <= TicksOf(deeds)[|TicksOf(deeds)| - 1]
    ensures var k := FirstTick(deeds, from);
      k < |deeds| && deeds[k].now < from + checkEvery
      && TicksOf(deeds[..k + 1]) != [] && TicksOf(deeds[..k + 1])[|TicksOf(deeds[..k + 1])| - 1] == deeds[k].now
  {
    var ticks, k := TicksOf(deeds), FirstTick(deeds, from);
    if k == |deeds| {
      TickOfDeed(deeds, ticks[|ticks| - 1]);
      assert false;
    }
    var before := TicksOf(deeds[..k]);
    assert deeds[..k + 1][..k] == deeds[..k];
    assert TicksOf(deeds[..k + 1]) == before + [deeds[k].now];
    TicksPrefix(deeds, k + 1);
    if before != [] {
      var last := before[|before| - 1];
      assert last in before;
      TickOfDeed(deeds[..k], last);
      assert last < from;
      assert ticks[|before|] == ticks[|before| - 1] + checkEvery;
    }
  }

  /** The idle bound of the manager: let ticks come on time, whatever else is done in between to
      others. When the first tick has passed at or after `updated + expireLimit`, which it does less
      than `expireLimit + checkEvery` after the last update, the callback of the idle token has been
      launched. */
  method LaunchedInTime(m: Manager, deeds: seq<Deed>, t: Token, updated: int, checkEvery: int) returns (k: nat)
    requires m.Valid() && t in m.tokens && t.unix == Unix(updated) && AllSpare(deeds, t, m.tokens[t])
    requires OnTime(TicksOf(deeds), checkEvery) && TicksOf(deeds) != []
    requires TicksOf(deeds)[0] < updated + m.expireLimit + checkEvery
    requires updated + m.expireLimit <= TicksOf(deeds)[|TicksOf(deeds)| - 1]
    modifies m, m.channels, set d | d in deeds && d.Updating? :: d.token
    ensures k < |deeds| && deeds[k].Expiring? && deeds[k].now < updated + m.expireLimit + checkEvery
    ensures m.Valid() && t in m.tokens
    ensures old(m.launched) <= m.launched
    ensures exists i :: |old(m.launched)| <= i < |m.launched| && m.launched[i].token == t
  {
    ghost var from := updated + m.expireLimit;
    FirstTickInTime(deeds, checkEvery, from);
    k := FirstTick(deeds, updated + m.expireLimit);
    ghost var clock := State.State(Stamps(m), {});
    ghost var since, name := |m.launched|, m.tokens[t];
    ghost var events, after := Live(m, deeds[..k + 1], clock, since);
    assert AllSpare(deeds[..k + 1], t, name);
    LastTickFires(clock, events, t, updated, m.expireLimit);
    LaunchedSince(m.launched, since, after.fired, t);
  }

  lemma LastTickFires<T>(clock: State<T>, events: seq<IC.Event<T>>, t: T, updated: int, expireLimit: int)
    requires t in clock.stamp && clock.stamp[t] == Unix(updated) && Untouched(events, t)
    requires TickTimes(events) != [] && TickTimes(events)[|TickTimes(events)| - 1] >= updated + expireLimit
    ensures t in IC.Run(clock, events, expireLimit).fired
  {
    var j := TickTimeIsTick(events, |TickTimes(events)| - 1);
    IdleTokenFires(clock, events, t, updated, expireLimit, j);
  }

  lemma LaunchedSince(launched: seq<Entry<Token>>, since: nat, fired: set<Token>, t: Token)
    requires since <= |launched| && AllLaunched(launched[since..], fired) && t in fired
    ensures exists i :: since <= i < |launched| && launched[i].token == t
  {
    var i :| 0 <= i < |launched[since..]| && launched[since..][i].token == t;
    assert launched[since + i].token == t;
  }

  /** Never early: as long as no tick comes more than `expireLimit` minus a second after its last
      update, the callback of a token that the deeds spare is not launched. */
  method NotLaunchedEarly(m: Manager, deeds: seq<Deed>, t: Token, updated: int)
    requires m.Valid() && t in m.tokens && t.unix == Unix(updated) && AllSpare(deeds, t, m.tokens[t])
    requires forall k :: 0 <= k < |deeds| && deeds[k].Expiring? ==> deeds[k].now - updated <= m.expireLimit - SECOND
    modifies m, m.channels, set d | d in deeds && d.Updating? :: d.token
    ensures m.Valid() && old(m.launched) <= m.launched && t in m.tokens
    ensures forall i :: |old(m.launched)| <= i < |m.launched| ==> m.launched[i].token != t
  {
    ghost var clock := State.State(Stamps(m), {});
    ghost var before := m.launched;
    ghost var events, after := Live(m, deeds, clock, |before|);
    if t in after.fired {
      ghost var k := NeverEarly(clock, events, t, updated, m.expireLimit);
      TickIsTime(events, k);
      TickOfDeed(deeds, events[k].now);
      assert false;
    }
    forall i | |before| <= i < |m.launched| ensures m.launched[i].token != t {
      assert m.launched[|before|..][i - |before|] == m.launched[i];
    }
  }

  lemma {:induction false} TickIsTime<T>(es: seq<IC.Event<T>>, k: nat)
    requires k < |es| && es[k].Tick?
    ensures es[k].now in TickTimes(es)
    decreases |es|
  {
    if k > 0 { TickIsTime(es[1..], k - 1); }
  }
}
