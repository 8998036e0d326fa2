/** The takeover protocol of the expiry manager as an unbounded step machine: any number of
    callers, any names. The critical sections are those of ExpireMaps; the other steps are the
    receive that lets a blocked Acquire return, and the callers' own discipline of releasing a
    token once, after Acquire returned it (app/instance.go). */
module Takeover {
  import opened ExpireMaps
  import opened Options

  datatype Stage = Waiting | Holding | Done

  /** One call of Acquire: its entry, the channel its local variable `blocker` points to, and
      how far the caller is. */
  datatype Call<T, C> = Call(name: string, entry: Entry<T>, blocker: Option<C>, stage: Stage)

  /** History of one name: tokens in the order in which Acquire made them, returned them, and
      Release took them back. */
  datatype Log<T> = Log(issued: seq<T>, granted: seq<T>, released: seq<T>)

  datatype State<T(==), C(==)> = State(
    maps: Maps<T, C>,
    calls: map<T, Call<T, C>>,
    made: set<C>,
    logs: map<string, Log<T>>)

  function Init<T(==), C(==)>(): State<T, C> {
    State(Maps(map[], map[], map[], {}, []), map[], {}, map[])
  }

  function LogOf<T(==), C(==)>(s: State<T, C>, name: string): Log<T> {
    if name in s.logs then s.logs[name] else Log([], [], [])
  }

  datatype Event<T, C> =
    | Acquire(t: T, c: C, name: string, onExpire: Callback)
    | Return(t: T)
    | Release(t: T)
    | Expire(batch: seq<Entry<T>>)
    | Remove(name: string)

  /** A call can return once its channel, if it has one, is closed. A token and a channel that
      are made must be new. */
  ghost predicate Enabled<T, C>(s: State<T, C>, e: Event<T, C>) {
    match e
    case Acquire(t, c, _, _) => t !in s.calls && c !in s.made
    case Return(t) => t in s.calls && s.calls[t].stage == Waiting && !Blocked(s, t)
    case Release(t) => t in s.calls && s.calls[t].stage == Holding
    case Expire(batch) => forall x :: x in batch ==> x in s.maps.entries.Values
    case Remove(_) => true
  }

  ghost predicate Blocked<T, C>(s: State<T, C>, t: T)
    requires t in s.calls
  {
    s.calls[t].blocker.Some? && s.calls[t].blocker.value !in s.maps.closed
  }

  function Next<T(==), C(==)>(s: State<T, C>, e: Event<T, C>): State<T, C>
    requires (e.Return? || e.Release?) ==> e.t in s.calls
  {
    match e
    case Acquire(t, c, name, onExpire) =>
      var entry := Entry(t, onExpire);
      var l := LogOf(s, name);
      State(Acquired(s.maps, name, entry, c),
            s.calls[t := Call(name, entry, if name in s.maps.entries then Some(c) else None, Waiting)],
            s.made + {c},
            s.logs[name := l.(issued := l.issued + [t])])
    case Return(t) =>
      var name := s.calls[t].name;
      var l := LogOf(s, name);
      s.(calls := s.calls[t := s.calls[t].(stage := Holding)],
         logs := s.logs[name := l.(granted := l.granted + [t])])
    case Release(t) =>
      var name := s.calls[t].name;
      var l := LogOf(s, name);
      s.(maps := Released(s.maps, t),
         calls := s.calls[t := s.calls[t].(stage := Done)],
         logs := s.logs[name := l.(released := l.released + [t])])
    case Expire(batch) =>
      s.(maps := s.maps.(launched := s.maps.launched + batch))
    case Remove(name) =>
      s.(maps := Removed(s.maps, name))
  }

  // ---------------------------------------------------------------- what every run keeps

  /** Kept by all operations, ExpireAndRemove included. */
  ghost predicate MapsOk<T, C>(s: State<T, C>) {
    && Consistent(s.maps)
    && s.maps.tokens.Keys <= s.calls.Keys
    && s.maps.blockers.Keys <= s.calls.Keys
    && s.maps.closed <= s.made
    && s.maps.blockers.Values <= s.made
  }

  lemma MapsOkStep<T, C>(s: State<T, C>, e: Event<T, C>)
    requires MapsOk(s) && Enabled(s, e)
    ensures MapsOk(Next(s, e))
    ensures e.Acquire? && e.name in s.maps.entries ==> s.maps.entries[e.name].token !in s.maps.blockers
    ensures e.Release? && e.t in s.maps.blockers ==> s.maps.blockers[e.t] !in s.maps.closed
    ensures e.Release? ==> forall n :: n in s.maps.entries && s.maps.entries[n].token != e.t ==>
              n in Next(s, e).maps.entries && Next(s, e).maps.entries[n] == s.maps.entries[n]
  {
    match e
    case Acquire(t, c, name, onExpire) =>
      if name in s.maps.entries {
        SupersedeKeepsConsistent(s.maps, name, Entry(t, onExpire), c);
      } else {
        RegisterKeepsConsistent(s.maps, name, Entry(t, onExpire));
      }
    case Return(t) =>
    case Release(t) =>
      ReleaseKeepsConsistent(s.maps, t);
      ReleaseShrinks(s.maps, t);
    case Expire(batch) =>
    case Remove(name) =>
      RemoveKeepsConsistent(s.maps, name);
  }

  lemma ReleaseShrinks<T, C>(m: Maps<T, C>, t: T)
    ensures Released(m, t).tokens.Keys <= m.tokens.Keys
    ensures Released(m, t).blockers.Keys <= m.blockers.Keys
    ensures Released(m, t).blockers.Values <= m.blockers.Values
    ensures Released(m, t).closed <= m.closed + m.blockers.Values
  {
    var m' := Released(m, t);
    forall c | c in m'.blockers.Values ensures c in m.blockers.Values {
      var u :| u in m'.blockers && m'.blockers[u] == c;
      assert m.blockers[u] == c;
    }
  }

  // ---------------------------------------------------------------- the chain of one name

  ghost predicate Prefixes<T>(l: Log<T>) {
    l.released <= l.granted <= l.issued && |l.granted| <= |l.released| + 1
  }

  function StageAt<T>(l: Log<T>, k: int): Stage {
    if k < |l.released| then Done else if k < |l.granted| then Holding else Waiting
  }

  /** The log lists the calls of `n`, each once, and tells how far each is. */
  ghost predicate Recorded<T, C>(s: State<T, C>, n: string) {
    var l := LogOf(s, n);
    && (forall k :: 0 <= k < |l.issued| ==> l.issued[k] in s.calls)
    && (forall k :: 0 <= k < |l.issued| ==>
          var call := s.calls[l.issued[k]];
          call.name == n && call.stage == StageAt(l, k) && call.entry.token == l.issued[k])
    && (forall i, j :: 0 <= i < j < |l.issued| ==> l.issued[i] != l.issued[j])
  }

  /** `entries[n]` is the youngest unreleased token, if there is one. */
  ghost predicate TailOk<T, C>(s: State<T, C>, n: string) {
    var l := LogOf(s, n);
    && (n in s.maps.entries <==> |l.released| < |l.issued|)
    && (n in s.maps.entries ==>
          l.issued[|l.issued| - 1] in s.calls && s.maps.entries[n] == s.calls[l.issued[|l.issued| - 1]].entry)
  }

  /** The k-th call of the log waits for the channel of its predecessor, which is open. */
  ghost predicate Behind<T, C>(s: State<T, C>, l: Log<T>, k: int)
    requires 0 < k < |l.issued| && l.issued[k] in s.calls
  {
    l.issued[k - 1] in s.maps.blockers && s.calls[l.issued[k]].blocker == Some(s.maps.blockers[l.issued[k - 1]])
  }

  /** Each unreleased token but the oldest is blocked on exactly its predecessor's channel; the
      oldest is not blocked; every unreleased token but the youngest has been told to go. */
  ghost predicate Linked<T, C>(s: State<T, C>, n: string)
    requires Recorded(s, n)
  {
    var l := LogOf(s, n);
    && (forall k :: |l.released| < k < |l.issued| ==> Behind(s, l, k))
    && (|l.released| < |l.issued| ==> !Blocked(s, l.issued[|l.released|]))
    && (forall k :: |l.released| <= k < |l.issued| - 1 ==> s.calls[l.issued[k]].entry in s.maps.launched)
  }

  ghost predicate Chain<T, C>(s: State<T, C>, n: string) {
    Prefixes(LogOf(s, n)) && Recorded(s, n) && TailOk(s, n) && Linked(s, n)
  }

  ghost predicate Inv<T, C>(s: State<T, C>) {
    && MapsOk(s)
    && (forall n :: Chain(s, n))
    && (forall t :: t in s.calls ==> t in LogOf(s, s.calls[t].name).issued)
  }

  // ---------------------------------------------------------------- steps keep the chain

  /** A token is registered exactly if it is the tail of its chain. */
  lemma RegisteredIsTail<T, C>(s: State<T, C>, n: string, k: nat)
    requires Inv(s) && k < |LogOf(s, n).issued|
    ensures LogOf(s, n).issued[k] in s.maps.tokens <==>
            k == |LogOf(s, n).issued| - 1 && |LogOf(s, n).released| < |LogOf(s, n).issued|
  {
    var l := LogOf(s, n);
    var t := l.issued[k];
    assert Chain(s, n);
    if t in s.maps.tokens {
      var m := s.maps.tokens[t];
      var l' := LogOf(s, m);
      assert s.maps.entries[m].token == t;
      assert Chain(s, m);
      assert s.calls[l'.issued[|l'.issued| - 1]].entry.token == l'.issued[|l'.issued| - 1];
    }
  }

  /** What another name's step leaves to `n`. */
  ghost predicate SameFor<T, C>(s: State<T, C>, s': State<T, C>, n: string) {
    && LogOf(s', n) == LogOf(s, n)
    && (forall t :: t in LogOf(s, n).issued ==> t in s.calls && t in s'.calls && s'.calls[t] == s.calls[t])
    && (n in s'.maps.entries <==> n in s.maps.entries)
    && (n in s.maps.entries ==> s'.maps.entries[n] == s.maps.entries[n])
    && (forall t :: t in LogOf(s, n).issued && t in s.maps.blockers ==>
          t in s'.maps.blockers && s'.maps.blockers[t] == s.maps.blockers[t])
    && s.maps.closed <= s'.maps.closed
    && (forall x :: x in s.maps.launched ==> x in s'.maps.launched)
  }

  lemma ChainFrame<T, C>(s: State<T, C>, s': State<T, C>, n: string)
    requires Chain(s, n) && SameFor(s, s', n)
    ensures Chain(s', n)
  {
    var l := LogOf(s, n);
    assert Recorded(s', n);
    assert TailOk(s', n);
    forall k | |l.released| < k < |l.issued| ensures Behind(s', l, k) {
      assert Behind(s, l, k);
    }
  }

  lemma AcquireOther<T, C>(s: State<T, C>, e: Event<T, C>, n: string)
    requires Inv(s) && e.Acquire? && Enabled(s, e) && n != e.name
    ensures Chain(Next(s, e), n)
  {
    var s' := Next(s, e);
    assert Chain(s, n);
    if e.name in s.maps.entries {
      assert Chain(s, e.name);
      var l := LogOf(s, e.name);
      assert s.maps.entries[e.name].token == l.issued[|l.issued| - 1];
    }
    ChainFrame(s, s', n);
  }

  lemma AcquireRecorded<T, C>(s: State<T, C>, e: Event<T, C>)
    requires e.Acquire? && Chain(s, e.name) && Enabled(s, e)
    ensures Recorded(Next(s, e), e.name) && TailOk(Next(s, e), e.name)
  {
    var l, l' := LogOf(s, e.name), LogOf(Next(s, e), e.name);
    assert l'.issued == l.issued + [e.t];
    assert forall k :: 0 <= k < |l.issued| ==> l'.issued[k] == l.issued[k];
  }

  /** A newcomer behind a tail is blocked on a new channel that only the tail's release closes. */
  lemma AcquireLinked<T, C>(s: State<T, C>, s': State<T, C>, n: string, t: T)
    requires Chain(s, n) && Recorded(s', n) && n in s.maps.entries
    requires LogOf(s', n) == LogOf(s, n).(issued := LogOf(s, n).issued + [t]) && t !in LogOf(s, n).issued
    requires t in s'.calls && forall u :: u in LogOf(s, n).issued ==>
      u in s.calls && u in s'.calls && s'.calls[u] == s.calls[u]
    requires s'.maps.blockers.Keys == s.maps.blockers.Keys + {s.maps.entries[n].token}
    requires forall u :: u in s.maps.blockers && u != s.maps.entries[n].token ==>
      s'.maps.blockers[u] == s.maps.blockers[u]
    requires s'.calls[t].blocker == Some(s'.maps.blockers[s.maps.entries[n].token])
    requires s'.maps.closed == s.maps.closed && s'.maps.launched == s.maps.launched + [s.maps.entries[n]]
    ensures Linked(s', n)
  {
    var l, l' := LogOf(s, n), LogOf(s', n);
    var last := |l.issued| - 1;
    assert forall k :: 0 <= k < |l.issued| ==> l'.issued[k] == l.issued[k];
    assert s.maps.entries[n].token == l.issued[last];
    forall k | |l.released| < k < |l'.issued| ensures Behind(s', l', k) {
      if k <= last {
        assert Behind(s, l, k);
        assert l.issued[k - 1] != l.issued[last];
      }
    }
  }

  lemma AcquireSame<T, C>(s: State<T, C>, e: Event<T, C>)
    requires Inv(s) && e.Acquire? && Enabled(s, e)
    ensures Chain(Next(s, e), e.name)
  {
    var s' := Next(s, e);
    var n := e.name;
    assert Chain(s, n);
    AcquireRecorded(s, e);
    if n in s.maps.entries {
      AcquireLinked(s, s', n, e.t);
    } else {
      assert LogOf(s', n).issued[|LogOf(s, n).issued|] == e.t;
    }
  }

  lemma ReturnRecorded<T, C>(s: State<T, C>, t: T)
    requires Inv(s) && Enabled(s, Event<T, C>.Return(t))
    ensures Prefixes(LogOf(Next(s, Event<T, C>.Return(t)), s.calls[t].name))
    ensures Recorded(Next(s, Event<T, C>.Return(t)), s.calls[t].name)
  {
    var n := s.calls[t].name;
    var l, l' := LogOf(s, n), LogOf(Next(s, Event<T, C>.Return(t)), n);
    assert Chain(s, n);
    ReturnAtHead(s, t);
    assert l'.granted == l.granted + [t] == l.issued[..|l.granted| + 1];
  }

  lemma ReturnSame<T, C>(s: State<T, C>, t: T)
    requires Inv(s) && Enabled(s, Event<T, C>.Return(t))
    ensures Chain(Next(s, Event<T, C>.Return(t)), s.calls[t].name)
  {
    var n := s.calls[t].name;
    var s' := Next(s, Event<T, C>.Return(t));
    var l, l' := LogOf(s, n), LogOf(s', n);
    assert Chain(s, n);
    ReturnRecorded(s, t);
    forall k | |l.released| < k < |l.issued| ensures Behind(s', l', k) {
      assert Behind(s, l, k);
    }
  }

  lemma ReturnOther<T, C>(s: State<T, C>, t: T, n: string)
    requires Inv(s) && Enabled(s, Event<T, C>.Return(t)) && n != s.calls[t].name
    ensures Chain(Next(s, Event<T, C>.Return(t)), n)
  {
    assert Chain(s, n);
    ChainFrame(s, Next(s, Event<T, C>.Return(t)), n);
  }

  /** Only the oldest unreleased token can return from Acquire, and only if it has not yet. */
  lemma ReturnAtHead<T, C>(s: State<T, C>, t: T)
    requires Inv(s) && t in s.calls
    ensures Enabled(s, Event<T, C>.Return(t)) <==>
            var l := LogOf(s, s.calls[t].name);
            |l.granted| == |l.released| < |l.issued| && t == l.issued[|l.released|]
  {
    var l := LogOf(s, s.calls[t].name);
    assert Chain(s, s.calls[t].name);
    var k :| 0 <= k < |l.issued| && l.issued[k] == t;
    if k > |l.released| {
      assert Behind(s, l, k);
      assert Blocked(s, t);
    }
  }

  /** Only the holder can release, and it is the oldest unreleased token. */
  lemma ReleaseAtHead<T, C>(s: State<T, C>, t: T)
    requires Inv(s) && t in s.calls
    ensures Enabled(s, Event<T, C>.Release(t)) <==>
            var l := LogOf(s, s.calls[t].name);
            |l.granted| == |l.released| + 1 && |l.released| < |l.issued| && t == l.issued[|l.released|]
  {
    var l := LogOf(s, s.calls[t].name);
    assert Chain(s, s.calls[t].name);
    var k :| 0 <= k < |l.issued| && l.issued[k] == t;
  }

  lemma ReleaseOther<T, C>(s: State<T, C>, t: T, n: string)
    requires Inv(s) && Enabled(s, Event<T, C>.Release(t)) && n != s.calls[t].name
    ensures Chain(Next(s, Event<T, C>.Release(t)), n)
  {
    var s' := Next(s, Event<T, C>.Release(t));
    assert Chain(s, n);
    ReleaseKeepsConsistent(s.maps, t);
    if n in s.maps.entries {
      var l := LogOf(s, n);
      assert s.maps.entries[n].token == l.issued[|l.issued| - 1] != t;
    }
    ChainFrame(s, s', n);
  }

  lemma ReleaseRecorded<T, C>(s: State<T, C>, s': State<T, C>, n: string)
    requires Chain(s, n)
    requires var l := LogOf(s, n);
      && |l.granted| == |l.released| + 1 && |l.released| < |l.issued|
      && LogOf(s', n) == l.(released := l.released + [l.issued[|l.released|]])
      && s'.calls == s.calls[l.issued[|l.released|] := s.calls[l.issued[|l.released|]].(stage := Done)]
    ensures Prefixes(LogOf(s', n)) && Recorded(s', n)
  {
    var l, l' := LogOf(s, n), LogOf(s', n);
    assert l'.released == l.issued[..|l.released| + 1];
  }

  /** The entry goes with the token if the token is the tail, and stays otherwise. */
  lemma ReleaseTail<T, C>(s: State<T, C>, s': State<T, C>, n: string)
    requires Chain(s, n) && Recorded(s', n)
    requires var l := LogOf(s, n); var l' := LogOf(s', n);
      && |l.released| < |l.issued| && l'.issued == l.issued && |l'.released| == |l.released| + 1
      && (n in s'.maps.entries <==> n in s.maps.entries && s.maps.entries[n].token != l.issued[|l.released|])
      && (n in s'.maps.entries ==> s'.maps.entries[n] == s.maps.entries[n])
      && forall t :: t in l.issued ==> t in s.calls && t in s'.calls && s'.calls[t].entry == s.calls[t].entry
    ensures TailOk(s', n)
  {
    var l := LogOf(s, n);
    assert s.maps.entries[n].token == l.issued[|l.issued| - 1];
  }

  /** Releasing the head unblocks its successor and leaves the rest of the chain alone. */
  lemma ReleaseLinked<T, C>(s: State<T, C>, s': State<T, C>, n: string)
    requires Chain(s, n) && Recorded(s', n)
    requires var l := LogOf(s, n); var l' := LogOf(s', n);
      && |l.released| < |l.issued| && l'.issued == l.issued && |l'.released| == |l.released| + 1
      && s'.maps == Released(s.maps, l.issued[|l.released|])
      && forall t | t in l.issued ::
           t in s.calls && t in s'.calls && s'.calls[t].entry == s.calls[t].entry
             && s'.calls[t].blocker == s.calls[t].blocker
    ensures Linked(s', n)
  {
    var l, l' := LogOf(s, n), LogOf(s', n);
    forall k | |l'.released| < k < |l'.issued| ensures Behind(s', l', k) {
      assert Behind(s, l, k);
    }
    if |l'.released| < |l'.issued| {
      assert Behind(s, l, |l'.released|);
    }
  }

  lemma ReleaseSame<T, C>(s: State<T, C>, t: T)
    requires Inv(s) && Enabled(s, Event<T, C>.Release(t))
    ensures Chain(Next(s, Event<T, C>.Release(t)), s.calls[t].name)
  {
    var s' := Next(s, Event<T, C>.Release(t));
    var n := s.calls[t].name;
    var l := LogOf(s, n);
    assert Chain(s, n);
    ReleaseAtHead(s, t);
    ReleaseRecorded(s, s', n);
    ReleaseLinked(s, s', n);
    ReleaseKeepsConsistent(s.maps, t);
    ReleaseTail(s, s', n);
  }

  lemma CallsStayLogged<T, C>(s: State<T, C>, e: Event<T, C>)
    requires Inv(s) && Enabled(s, e)
    ensures forall t :: t in Next(s, e).calls ==> t in LogOf(Next(s, e), Next(s, e).calls[t].name).issued
  {
    var s' := Next(s, e);
    forall t | t in s'.calls ensures t in LogOf(s', s'.calls[t].name).issued {
      if t in s.calls {
        assert t in LogOf(s, s.calls[t].name).issued;
      }
    }
  }

  /** The hand-off chain survives every step except ExpireAndRemove. */
  lemma InvStep<T, C>(s: State<T, C>, e: Event<T, C>)
    requires Inv(s) && Enabled(s, e) && !e.Remove?
    ensures Inv(Next(s, e))
  {
    MapsOkStep(s, e);
    CallsStayLogged(s, e);
    forall n ensures Chain(Next(s, e), n) {
      match e
      case Acquire(_, _, name, _) => if n == name { AcquireSame(s, e); } else { AcquireOther(s, e, n); }
      case Return(t) => if n == s.calls[t].name { ReturnSame(s, t); } else { ReturnOther(s, t, n); }
      case Release(t) => if n == s.calls[t].name { ReleaseSame(s, t); } else { ReleaseOther(s, t, n); }
      case Expire(batch) => assert Chain(s, n); ChainFrame(s, Next(s, e), n);
    }
  }
}
