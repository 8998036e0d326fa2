/** The three maps of the expiry manager (pkg/expire/manager.go) as a value, and what each
    critical section does to them. `T` is the identity of a token and `C` that of a channel:
    both are Go pointers, so nothing but equality is used. */
module ExpireMaps {
  /** The closure passed to Acquire; in this program it closes one websocket connection. */
  type Callback = nat

  datatype Entry<T> = Entry(token: T, onExpire: Callback)

  /** `closed` is the set of channels closed so far; `launched` records every
      `go entry.onExpire()` in order. */
  datatype Maps<T(==), C(==)> = Maps(
    entries: map<string, Entry<T>>,
    tokens: map<T, string>,
    blockers: map<T, C>,
    closed: set<C>,
    launched: seq<Entry<T>>)

  /** Acquire of a name nobody holds. */
  function Registered<T(==), C(==)>(m: Maps<T, C>, name: string, e: Entry<T>): Maps<T, C> {
    m.(entries := m.entries[name := e], tokens := m.tokens[e.token := name])
  }

  /** Acquire of a held name: the newcomer takes the entry over and `c` will tell it when the
      holder has released. */
  function Superseded<T(==), C(==)>(m: Maps<T, C>, name: string, e: Entry<T>, c: C): Maps<T, C>
    requires name in m.entries
  {
    var prev := m.entries[name];
    Maps(m.entries[name := e], (m.tokens - {prev.token})[e.token := name],
         m.blockers[prev.token := c], m.closed, m.launched + [prev])
  }

  function Acquired<T(==), C(==)>(m: Maps<T, C>, name: string, e: Entry<T>, c: C): Maps<T, C> {
    if name in m.entries then Superseded(m, name, e, c) else Registered(m, name, e)
  }

  function Released<T(==), C(==)>(m: Maps<T, C>, t: T): Maps<T, C> {
    var m1 := if t in m.tokens
              then m.(entries := m.entries - {m.tokens[t]}, tokens := m.tokens - {t}) else m;
    if t in m1.blockers
    then m1.(closed := m1.closed + {m1.blockers[t]}, blockers := m1.blockers - {t}) else m1
  }

  function Removed<T(==), C(==)>(m: Maps<T, C>, name: string): Maps<T, C> {
    if name in m.entries then
      var e := m.entries[name];
      m.(entries := m.entries - {name}, tokens := m.tokens - {e.token}, launched := m.launched + [e])
    else m
  }

  /** ExpireAndRemoveAll removes the names one by one, in the arbitrary order of a Go map. */
  function RemovedAll<T(==), C(==)>(m: Maps<T, C>, order: seq<string>): Maps<T, C>
    decreases |order|
  {
    if order == [] then m else RemovedAll(Removed(m, order[0]), order[1..])
  }

  /** `entries` and `tokens` are inverse to each other. */
  ghost predicate Inverse<T, C>(m: Maps<T, C>) {
    && (forall n :: n in m.entries ==> m.entries[n].token in m.tokens && m.tokens[m.entries[n].token] == n)
    && (forall t :: t in m.tokens ==> m.tokens[t] in m.entries && m.entries[m.tokens[t]].token == t)
  }

  /** A blocker waits for a superseded token, is still open, and belongs to that token alone. */
  ghost predicate BlockersOk<T, C>(m: Maps<T, C>) {
    && m.blockers.Keys !! m.tokens.Keys
    && (forall t :: t in m.blockers ==> m.blockers[t] !in m.closed)
    && (forall t, u :: t in m.blockers && u in m.blockers && m.blockers[t] == m.blockers[u] ==> t == u)
  }

  ghost predicate Consistent<T, C>(m: Maps<T, C>) {
    Inverse(m) && BlockersOk(m)
  }

  lemma RegisterKeepsConsistent<T, C>(m: Maps<T, C>, name: string, e: Entry<T>)
    requires Consistent(m) && name !in m.entries && e.token !in m.tokens && e.token !in m.blockers
    ensures Consistent(Registered(m, name, e))
  {
    var m' := Registered(m, name, e);
    forall n | n in m'.entries ensures m'.entries[n].token in m'.tokens && m'.tokens[m'.entries[n].token] == n {
      if n != name { assert m.entries[n].token in m.tokens; }
    }
  }

  /** Besides consistency: the takeover installs its blocker under a key that had none. */
  lemma SupersedeKeepsConsistent<T, C>(m: Maps<T, C>, name: string, e: Entry<T>, c: C)
    requires Consistent(m) && name in m.entries && e.token !in m.tokens && e.token !in m.blockers
    requires c !in m.closed && c !in m.blockers.Values
    ensures Consistent(Superseded(m, name, e, c))
    ensures m.entries[name].token !in m.blockers
  {
    var m' := Superseded(m, name, e, c);
    assert Inverse(m') by {
      forall n | n in m'.entries ensures m'.entries[n].token in m'.tokens && m'.tokens[m'.entries[n].token] == n {
        if n != name { assert m.entries[n].token in m.tokens; }
      }
    }
    assert BlockersOk(m') by {
      forall t, u | t in m'.blockers && u in m'.blockers && m'.blockers[t] == m'.blockers[u] ensures t == u {
        assert t in m.blockers ==> m.blockers[t] in m.blockers.Values;
        assert u in m.blockers ==> m.blockers[u] in m.blockers.Values;
      }
    }
  }

  /** Releasing closes at most one channel, one that was open, and evicts exactly the
      entry of that very token: a superseded token never evicts its successor. */
  lemma ReleaseKeepsConsistent<T, C>(m: Maps<T, C>, t: T)
    requires Consistent(m)
    ensures Consistent(Released(m, t))
    ensures t in m.blockers ==> m.blockers[t] !in m.closed && Released(m, t).closed == m.closed + {m.blockers[t]}
    ensures t !in m.blockers ==> Released(m, t).closed == m.closed
    ensures forall n :: n in Released(m, t).entries <==> n in m.entries && m.entries[n].token != t
    ensures forall n :: n in Released(m, t).entries ==> Released(m, t).entries[n] == m.entries[n]
  {
    var m' := Released(m, t);
    assert forall n :: n in m'.entries ==> n in m.entries && m'.entries[n] == m.entries[n];
    assert forall u :: u in m'.tokens ==> u in m.tokens && m'.tokens[u] == m.tokens[u];
    assert forall u :: u in m'.blockers ==> u in m.blockers && m'.blockers[u] == m.blockers[u];
  }

  lemma RemoveKeepsConsistent<T, C>(m: Maps<T, C>, name: string)
    requires Consistent(m)
    ensures Consistent(Removed(m, name))
    ensures Removed(m, name).blockers == m.blockers
    ensures Removed(m, name).entries == m.entries - {name}
  {
    var m' := Removed(m, name);
    assert forall n :: n in m'.entries ==> n in m.entries && m'.entries[n] == m.entries[n];
    assert forall u :: u in m'.tokens ==> u in m.tokens && m'.tokens[u] == m.tokens[u];
  }

  /** Whatever the order, ExpireAndRemoveAll empties both maps when it visits every name. */
  lemma {:induction false} RemoveAllKeepsConsistent<T, C>(m: Maps<T, C>, order: seq<string>)
    requires Consistent(m)
    ensures Consistent(RemovedAll(m, order))
    ensures RemovedAll(m, order).blockers == m.blockers
    ensures forall n :: n in RemovedAll(m, order).entries <==> n in m.entries && n !in order
    ensures (forall n :: n in m.entries ==> n in order) ==> RemovedAll(m, order).tokens == map[]
    decreases |order|
  {
    var r := RemovedAll(m, order);
    if order != [] {
      RemoveKeepsConsistent(m, order[0]);
      RemoveAllKeepsConsistent(Removed(m, order[0]), order[1..]);
    }
    if forall n :: n in m.entries ==> n in order {
      assert r.entries == map[];
    }
  }
}
