/** The expiry manager of pkg/expire as objects that are updated in place. Every method is one
    critical section of the manager's mutex; its effect is the function of the same name in
    ExpireMaps. What happens between critical sections is the subject of Takeover. */
module ExpireManager {
  import opened ExpireMaps
  import opened IdleClock

  /** pkg/expire/token.go. The clock is a parameter. */
  class Token {
    var unix: int

    constructor (now: int)
      ensures unix == Unix(now)
    {
      unix := Unix(now);
    }

    method Update(now: int)
      modifies this
      ensures unix == Unix(now)
    {
      unix := Unix(now);
    }

    predicate After(u: int)
      reads this
    {
      unix > Unix(u)
    }
  }

  /** An unbuffered channel that is only ever closed. Closing it twice panics. */
  class Channel {
    var closed: bool

    constructor ()
      ensures !closed
    {
      closed := false;
    }

    method Close()
      requires !closed
      modifies this
      ensures closed
    {
      closed := true;
    }
  }

  /** What the goroutine of `Run` receives: a tick of the ticker, or the value sent by Stop. */
  datatype Signal = Done | Tick(now: int)

  class Manager {
    const expireLimit: int
    var entries: map<string, Entry<Token>>
    var tokens: map<Token, string>
    var blockers: map<Token, Channel>
    // Every goroutine started with `go entry.onExpire()`.
    var launched: seq<Entry<Token>>
    // Every channel made by Acquire.
    ghost var channels: set<Channel>

    ghost function View(): Maps<Token, Channel>
      reads this, channels
    {
      Maps(entries, tokens, blockers, (set c | c in channels && c.closed), launched)
    }

    ghost predicate Valid()
      reads this, channels
    {
      blockers.Values <= channels && Consistent(View())
    }

    constructor (expireLimit: int)
      ensures Valid() && channels == {} && this.expireLimit == expireLimit
      ensures View() == Maps(map[], map[], map[], {}, [])
    {
      this.expireLimit := expireLimit;
      entries, tokens, blockers, launched, channels := map[], map[], map[], [], {};
    }

    /** The branch of Acquire for a held name. */
    method Evict(prev: Entry<Token>) returns (blocker: Channel)
      modifies this`blockers, this`channels, this`tokens, this`launched
      ensures fresh(blocker) && !blocker.closed && channels == old(channels) + {blocker}
      ensures View() == Maps(entries, old(tokens) - {prev.token}, old(blockers)[prev.token := blocker],
                             old(View()).closed, old(launched) + [prev])
    {
      ghost var before := View();
      blocker := new Channel();
      blockers := blockers[prev.token := blocker];
      channels := channels + {blocker};
      tokens := tokens - {prev.token};
      launched := launched + [prev];
      assert View().closed == before.closed;
    }

    /** The part of Acquire under the lock. The caller then receives from `blocker`, if there
        is one, before Acquire returns `token`. */
    method Acquire(name: string, onExpire: Callback, now: int) returns (token: Token, blocker: Channel?)
      requires Valid()
      modifies this
      ensures Valid() && fresh(token) && token.unix == Unix(now)
      ensures blocker == null <==> name !in old(entries)
      ensures blocker == null ==> channels == old(channels)
      ensures blocker != null ==> fresh(blocker) && !blocker.closed && channels == old(channels) + {blocker}
      ensures blocker == null ==> View() == Registered(old(View()), name, Entry(token, onExpire))
      ensures blocker != null ==> View() == Superseded(old(View()), name, Entry(token, onExpire), blocker)
    {
      blocker := null;
      ghost var before := View();
      token := new Token(now);
      var e := Entry(token, onExpire);
      if name in entries {
        blocker := Evict(entries[name]);
        SupersedeKeepsConsistent(before, name, e, blocker);
      } else {
        RegisterKeepsConsistent(before, name, e);
      }
      entries := entries[name := e];
      tokens := tokens[token := name];
      assert View().closed == before.closed;
    }

    /** Release takes any token: one that is registered, superseded, removed or released before. */
    method Release(token: Token)
      requires Valid()
      modifies this, channels
      ensures Valid() && channels == old(channels)
      ensures View() == Released(old(View()), token)
      ensures forall c :: c in channels && old(c.closed) ==> c.closed
    {
      ghost var before := View();
      ReleaseKeepsConsistent(before, token);
      if token in tokens {
        var name := tokens[token];
        entries := entries - {name};
        tokens := tokens - {token};
      }
      if token in blockers {
        var blocker := blockers[token];
        blocker.Close();
        blockers := blockers - {token};
        assert View().closed == before.closed + {blocker};
      }
    }

    method ExpireAndRemove(name: string)
      requires Valid()
      modifies this
      ensures Valid() && channels == old(channels)
      ensures View() == Removed(old(View()), name)
    {
      RemoveKeepsConsistent(View(), name);
      if name in entries {
        var entry := entries[name];
        entries := entries - {name};
        tokens := tokens - {entry.token};
        launched := launched + [entry];
      }
    }

    /** `order` is the order in which the map iteration visits the names. */
    method ExpireAndRemoveAll() returns (ghost order: seq<string>)
      requires Valid()
      modifies this
      ensures Valid() && channels == old(channels)
      ensures entries == map[] && tokens == map[]
      ensures View() == RemovedAll(old(View()), order)
      ensures forall n :: n in order <==> n in old(entries)
    {
      order := [];
      ghost var before := View();
      while entries != map[]
        invariant Valid() && channels == old(channels)
        invariant View() == RemovedAll(before, order)
        invariant forall n :: n in entries <==> n in before.entries && n !in order
        invariant forall n :: n in order ==> n in before.entries
        modifies this
        decreases entries.Keys
      {
        assert entries.Keys != {};
        var name :| name in entries;
        RemovedAllSnoc(before, order, name);
        ExpireAndRemove(name);
        order := order + [name];
      }
      RemoveAllKeepsConsistent(before, order);
    }

    /** One tick: launches, once each, exactly the entries that are idle, and removes nothing. */
    method Expire(now: int) returns (ghost fired: seq<Entry<Token>>)
      requires Valid()
      modifies this`launched
      ensures Valid()
      ensures launched == old(launched) + fired
      ensures forall i, j :: 0 <= i < j < |fired| ==> fired[i] != fired[j]
      ensures forall e :: e in fired <==> e in entries.Values && Fires(e.token.unix, now, expireLimit)
    {
      fired := [];
      var rest := entries;
      ghost var m, before, visited := View(), launched, {};
      ghost var idle := set n | n in entries && Fires(entries[n].token.unix, now, expireLimit);
      while rest != map[]
        invariant visited <= m.entries.Keys && rest == m.entries - visited
        invariant launched == before + fired && Handled(m.entries, idle * visited, fired)
        modifies this`launched
        decreases rest.Keys
      {
        assert rest.Keys != {};
        var name :| name in rest;
        var entry := entries[name];
        HandledNext(m, idle, visited, fired, name);
        if !entry.token.After(now - expireLimit) {
          launched := launched + [entry];
          fired := fired + [entry];
        }
        rest := rest - {name};
        visited := visited + {name};
      }
      assert m.entries.Keys - visited == rest.Keys == {};
      assert idle * visited == idle;
    }

    ghost predicate FiredBy(t: Token, signals: seq<Signal>)
      reads t
    {
      exists k :: 0 <= k < |signals| && signals[k].Tick? && Fires(t.unix, signals[k].now, expireLimit)
    }

    /** The goroutine of Run: expires on every tick until Stop's value arrives. */
    method Run(signals: seq<Signal>) returns (ghost ticks: nat)
      requires Valid()
      modifies this`launched
      ensures Valid() && old(launched) <= launched
      ensures ticks <= |signals| && (forall k :: 0 <= k < ticks ==> signals[k].Tick?)
      ensures ticks < |signals| ==> signals[ticks] == Done
      ensures forall e, k :: 0 <= k < ticks && e in entries.Values && Fires(e.token.unix, signals[k].now, expireLimit)
                ==> e in launched
      ensures forall i :: |old(launched)| <= i < |launched| ==>
                launched[i] in entries.Values && FiredBy(launched[i].token, signals[..ticks])
    {
      ticks := 0;
      var next := 0;
      while next < |signals|
        invariant next == ticks <= |signals| && (forall k :: 0 <= k < ticks ==> signals[k].Tick?)
        invariant Valid() && old(launched) <= launched
        invariant forall e, k | 0 <= k < ticks && e in entries.Values
          && Fires(e.token.unix, signals[k].now, expireLimit) :: e in launched
        invariant forall i :: |old(launched)| <= i < |launched| ==>
                    launched[i] in entries.Values && FiredBy(launched[i].token, signals[..ticks])
        modifies this`launched
      {
        match signals[next]
        case Done => return;
        case Tick(now) =>
          ghost var before := launched;
          ghost var fired := Expire(now);
          assert forall i :: |before| <= i < |launched| ==> launched[i] in fired;
          next, ticks := next + 1, ticks + 1;
      }
    }
  }

  /** The entries of `names`, once each. */
  ghost predicate Handled<T>(entries: map<string, Entry<T>>, names: set<string>, fired: seq<Entry<T>>) {
    && names <= entries.Keys
    && (forall i, j :: 0 <= i < j < |fired| ==> fired[i] != fired[j])
    && (forall e :: e in fired ==> e in entries.Values)
    && (forall n :: n in entries ==> (entries[n] in fired <==> n in names))
  }

  lemma HandledNext<T, C>(m: Maps<T, C>, idle: set<string>, visited: set<string>, fired: seq<Entry<T>>, name: string)
    requires Consistent(m) && Handled(m.entries, idle * visited, fired) && name in m.entries && name !in visited
    ensures Handled(m.entries, idle * (visited + {name}), if name in idle then fired + [m.entries[name]] else fired)
  {
    assert idle * (visited + {name}) == idle * visited + if name in idle then {name} else {};
    assert forall n :: n in m.entries && n != name ==> m.entries[n] != m.entries[name];
  }

  lemma {:induction false} RemovedAllSnoc<T, C>(m: Maps<T, C>, order: seq<string>, name: string)
    ensures RemovedAll(m, order + [name]) == Removed(RemovedAll(m, order), name)
    decreases |order|
  {
    if order == [] {
      assert ([] + [name])[1..] == [];
    } else {
      assert (order + [name])[1..] == order[1..] + [name];
      RemovedAllSnoc(Removed(m, order[0]), order[1..], name);
    }
  }
}
