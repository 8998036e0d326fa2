/** The second-granularity clock arithmetic of pkg/expire/token.go. Instants and durations are
    integers in nanoseconds, as in Go's time package; a token only keeps whole seconds. */
module IdleClock {
  const SECOND := 1_000_000_000

  /** time.Time.Unix: whole seconds, rounded towards the past. */
  function Unix(t: int): (s: int)
    ensures s * SECOND <= t < (s + 1) * SECOND
  {
    t / SECOND
  }

  /** `!token.after(threshold)`: the tick at `now` launches the entry of a token stamped `stamp`. */
  predicate Fires(stamp: int, now: int, expireLimit: int) {
    stamp <= Unix(now - expireLimit)
  }

  /** What one tick does to a token last updated at `updated`: certain from `expireLimit` on,
      excluded up to a second before it, and in between decided by the fractions of a second. */
  lemma TickBounds(updated: int, now: int, expireLimit: int)
    ensures now - updated >= expireLimit ==> Fires(Unix(updated), now, expireLimit)
    ensures now - updated <= expireLimit - SECOND ==> !Fires(Unix(updated), now, expireLimit)
    ensures expireLimit - SECOND < now - updated < expireLimit ==>
      (Fires(Unix(updated), now, expireLimit) <==> Unix(updated) == Unix(now - expireLimit))
  {
    var u, w := Unix(updated), Unix(now - expireLimit);
    assert u * SECOND <= updated < u * SECOND + SECOND;
    assert w * SECOND <= now - expireLimit < w * SECOND + SECOND;
  }

  /** Events of the manager's clock, for the tokens that are registered in `entries`. */
  datatype Event<T> =
    | Register(t: T, now: int)
    | Update(t: T, now: int)
    | Drop(t: T)
    | Tick(now: int)

  /** `stamp` holds the seconds kept by the registered tokens, `fired` those whose onExpire a
      tick has launched. */
  datatype State<T(==)> = State(stamp: map<T, int>, fired: set<T>)

  function Next<T(==)>(s: State<T>, e: Event<T>, expireLimit: int): State<T> {
    match e
    case Register(t, now) => s.(stamp := s.stamp[t := Unix(now)])
    case Update(t, now) => if t in s.stamp then s.(stamp := s.stamp[t := Unix(now)]) else s
    case Drop(t) => s.(stamp := s.stamp - {t})
    case Tick(now) => s.(fired := s.fired + set t | t in s.stamp && Fires(s.stamp[t], now, expireLimit))
  }

  function Run<T(==)>(s: State<T>, es: seq<Event<T>>, expireLimit: int): State<T>
    decreases |es|
  {
    if es == [] then s else Run(Next(s, es[0], expireLimit), es[1..], expireLimit)
  }

  /** The events leave `t` alone: it stays registered and is not used. */
  ghost predicate Untouched<T>(es: seq<Event<T>>, t: T) {
    forall i :: 0 <= i < |es| ==> es[i].Tick? || es[i].t != t
  }

  /** A token that stays registered and idle is fired by any run with a tick at or after
      `updated + expireLimit`. */
  lemma {:induction false} IdleTokenFires<T>(s: State<T>, es: seq<Event<T>>, t: T, updated: int, expireLimit: int,
                                             k: nat)
    requires t in s.stamp && s.stamp[t] == Unix(updated)
    requires Untouched(es, t)
    requires k < |es| && es[k].Tick? && es[k].now >= updated + expireLimit
    ensures t in Run(s, es, expireLimit).fired
    decreases |es|
  {
    var s1 := Next(s, es[0], expireLimit);
    if k == 0 {
      TickBounds(updated, es[0].now, expireLimit);
      FiredStays(s1, es[1..], expireLimit, t);
    } else {
      IdleTokenFires(s1, es[1..], t, updated, expireLimit, k - 1);
    }
  }

  lemma {:induction false} FiredStays<T>(s: State<T>, es: seq<Event<T>>, expireLimit: int, t: T)
    requires t in s.fired
    ensures t in Run(s, es, expireLimit).fired
    decreases |es|
  {
    if es != [] {
      FiredStays(Next(s, es[0], expireLimit), es[1..], expireLimit, t);
    }
  }

  lemma {:induction false} RunConcat<T>(s: State<T>, es: seq<Event<T>>, fs: seq<Event<T>>, expireLimit: int)
    ensures Run(s, es + fs, expireLimit) == Run(Run(s, es, expireLimit), fs, expireLimit)
    ensures TickTimes(es + fs) == TickTimes(es) + TickTimes(fs)
    decreases |es|
  {
    if es == [] {
      assert es + fs == fs;
    } else {
      assert (es + fs)[1..] == es[1..] + fs;
      RunConcat(Next(s, es[0], expireLimit), es[1..], fs, expireLimit);
    }
  }

  /** The instants of the ticks of a run, in order. */
  function TickTimes<T>(es: seq<Event<T>>): seq<int> {
    if es == [] then []
    else (if es[0].Tick? then [es[0].now] else []) + TickTimes(es[1..])
  }

  /** On time: a tick every `checkEvery`, with no slack. */
  ghost predicate OnTime(ticks: seq<int>, checkEvery: int) {
    forall i :: 0 < i < |ticks| ==> ticks[i] == ticks[i - 1] + checkEvery
  }

  lemma {:induction false} TickTimeIsTick<T>(es: seq<Event<T>>, i: nat) returns (k: nat)
    requires i < |TickTimes(es)|
    ensures k < |es| && es[k].Tick? && es[k].now == TickTimes(es)[i]
    ensures TickTimes(es[..k]) == TickTimes(es)[..i]
    decreases |es|
  {
    if es[0].Tick? && i == 0 {
      k := 0;
    } else {
      var j := TickTimeIsTick(es[1..], if es[0].Tick? then i - 1 else i);
      k := j + 1;
      assert es[..k][1..] == es[1..][..j];
    }
  }

  /** Some tick falls in the window of length `checkEvery` that starts at `from`. */
  lemma {:induction false} TickInWindow(ticks: seq<int>, checkEvery: int, from: int) returns (i: nat)
    requires checkEvery > 0 && OnTime(ticks, checkEvery)
    requires ticks != [] && ticks[0] < from + checkEvery && from <= ticks[|ticks| - 1]
    ensures i < |ticks| && from <= ticks[i] < from + checkEvery
    decreases |ticks|
  {
    if ticks[0] >= from {
      i := 0;
    } else {
      var j := TickInWindow(ticks[1..], checkEvery, from);
      i := j + 1;
    }
  }

  /** The idle bound: with on-time ticks running past `updated + expireLimit`, the callback of an
      idle registered token is launched by a tick that comes less than
      `expireLimit + checkEvery` after the last update. */
  lemma IdleBound<T>(s: State<T>, es: seq<Event<T>>, t: T, updated: int, expireLimit: int, checkEvery: int)
    returns (k: nat)
    requires t in s.stamp && s.stamp[t] == Unix(updated) && Untouched(es, t)
    requires checkEvery > 0 && OnTime(TickTimes(es), checkEvery) && TickTimes(es) != []
    requires TickTimes(es)[0] < updated + expireLimit + checkEvery
    requires updated + expireLimit <= TickTimes(es)[|TickTimes(es)| - 1]
    ensures k < |es| && es[k].Tick? && es[k].now < updated + expireLimit + checkEvery
    ensures t in Run(s, es[..k + 1], expireLimit).fired
    ensures t in Run(s, es, expireLimit).fired
  {
    var i := TickInWindow(TickTimes(es), checkEvery, updated + expireLimit);
    k := TickTimeIsTick(es, i);
    IdleTokenFires(s, es[..k + 1], t, updated, expireLimit, k);
    IdleTokenFires(s, es, t, updated, expireLimit, k);
  }

  /** No early firing: if a run fires a token that it leaves untouched, one of its ticks came
      more than `expireLimit` minus one second after the last update. */
  lemma {:induction false} NeverEarly<T>(s: State<T>, es: seq<Event<T>>, t: T, updated: int, expireLimit: int)
    returns (k: nat)
    requires t in s.stamp && s.stamp[t] == Unix(updated) && t !in s.fired
    requires Untouched(es, t) && t in Run(s, es, expireLimit).fired
    ensures k < |es| && es[k].Tick? && es[k].now - updated > expireLimit - SECOND
    decreases |es|
  {
    var s1 := Next(s, es[0], expireLimit);
    if t in s1.fired {
      TickBounds(updated, es[0].now, expireLimit);
      k := 0;
    } else {
      var j := NeverEarly(s1, es[1..], t, updated, expireLimit);
      k := j + 1;
    }
  }
}
