/** The scheduled runner of pkg/sched/sched.go: a goroutine that selects between a ticker and a
    one-slot channel for manual runs, and ends when that channel is closed and empty. Callers of
    Run and Stop, the ticker and the goroutine take steps in any order. */
module SchedRunner {
  /** Where the goroutine is; `manual` tells what it received. */
  datatype Worker = NotStarted | Selecting | Received(manual: bool) | Running | Exited

  /** Where the call of Stop is. */
  datatype Stopping = NotCalled | TickerStopped | Closed | Returned

  /** `tick` and `manual` tell whether the two channels, of capacity one, hold something. */
  datatype State = State(tick: bool, manual: bool, worker: Worker, stopping: Stopping)

  function Init(): State {
    State(false, false, NotStarted, NotCalled)
  }

  datatype Event =
    | Start              // startOnce: the goroutine begins
    | Tick               // the ticker delivers, or drops the tick if one is pending
    | Run                // a call of Run: fills the slot, or finds it full
    | TakeTick | TakeManual | SeeClosed   // the select of the goroutine
    | Begin(manual: bool) | End           // the call of fn
    | StopTicker | Close | Return         // the three statements of stop, under stopOnce

  predicate ManualClosed(s: State) {
    s.stopping == Closed || s.stopping == Returned
  }

  /** A Run after the close would panic; a closed channel still gives what it holds first. */
  predicate Enabled(s: State, e: Event) {
    match e
    case Start => s.worker == NotStarted
    case Tick => s.stopping == NotCalled
    case Run => !ManualClosed(s)
    case TakeTick => s.worker == Selecting && s.tick
    case TakeManual => s.worker == Selecting && s.manual
    case SeeClosed => s.worker == Selecting && !s.manual && ManualClosed(s)
    case Begin(manual) => s.worker == Received(manual)
    case End => s.worker == Running
    case StopTicker => s.stopping == NotCalled
    case Close => s.stopping == TickerStopped
    case Return => s.stopping == Closed && s.worker == Exited
  }

  function Next(s: State, e: Event): State {
    match e
    case Start => s.(worker := Selecting)
    case Tick => s.(tick := true)
    case Run => s.(manual := true)
    case TakeTick => s.(tick := false, worker := Received(false))
    case TakeManual => s.(manual := false, worker := Received(true))
    case SeeClosed => s.(worker := Exited)
    case Begin(_) => s.(worker := Running)
    case End => s.(worker := Selecting)
    case StopTicker => s.(stopping := TickerStopped)
    case Close => s.(stopping := Closed)
    case Return => s.(stopping := Returned)
  }

  function After(s: State, es: seq<Event>): State
    requires Valid(s, es)
    decreases |es|, 1
  {
    if es == [] then s else Next(After(s, es[..|es| - 1]), es[|es| - 1])
  }

  predicate Valid(s: State, es: seq<Event>)
    decreases |es|, 0
  {
    es == [] || (Valid(s, es[..|es| - 1]) && Enabled(After(s, es[..|es| - 1]), es[|es| - 1]))
  }

  // ---------------------------------------------------------------- runs of fn

  predicate IsStart(e: Event) {
    e.Begin?
  }

  predicate IsManualStart(e: Event) {
    e == Begin(true)
  }

  predicate IsTickStart(e: Event) {
    e == Begin(false)
  }

  predicate IsEnd(e: Event) {
    e == End
  }

  function Count(es: seq<Event>, p: Event -> bool): nat {
    if es == [] then 0 else Count(es[..|es| - 1], p) + if p(es[|es| - 1]) then 1 else 0
  }

  /** Runs of `fn` never overlap: starts and ends alternate, and `fn` runs just in between. */
  lemma {:induction false} NoOverlap(es: seq<Event>)
    requires Valid(Init(), es)
    ensures Count(es, IsStart) == Count(es, IsEnd) + if After(Init(), es).worker == Running then 1 else 0
  {
    if es != [] {
      NoOverlap(es[..|es| - 1]);
    }
  }

  // ---------------------------------------------------------------- manual runs

  /** Calls of Run that filled the slot. */
  function Accepted(s: State, es: seq<Event>): nat
    requires Valid(s, es)
  {
    if es == [] then 0
    else Accepted(s, es[..|es| - 1]) + if es[|es| - 1] == Run && !After(s, es[..|es| - 1]).manual then 1 else 0
  }

  /** A manual request that no start of `fn` has answered yet. */
  function Owed(s: State): nat {
    (if s.manual then 1 else 0) + (if s.worker == Received(true) then 1 else 0)
  }

  /** Every accepted request is answered by exactly one start, at once or later. */
  lemma {:induction false} ManualStartsAreAccepted(s: State, es: seq<Event>)
    requires Valid(s, es)
    ensures Owed(s) + Accepted(s, es) == Count(es, IsManualStart) + Owed(After(s, es))
  {
    if es != [] {
      ManualStartsAreAccepted(s, es[..|es| - 1]);
    }
  }

  lemma {:induction false} ValidSplit(s: State, es: seq<Event>, k: nat)
    requires Valid(s, es) && k <= |es|
    ensures Valid(s, es[..k]) && Valid(After(s, es[..k]), es[k..])
    ensures After(After(s, es[..k]), es[k..]) == After(s, es)
    decreases |es|
  {
    if k == |es| {
      assert es[..k] == es;
    } else {
      var before := es[..|es| - 1];
      ValidSplit(s, before, k);
      assert before[..k] == es[..k];
      assert es[k..][..|es[k..]| - 1] == before[k..];
    }
  }

  lemma {:induction false} CountedIsThere(es: seq<Event>, p: Event -> bool) returns (i: nat)
    requires Count(es, p) > 0
    ensures i < |es| && p(es[i])
  {
    if p(es[|es| - 1]) {
      i := |es| - 1;
    } else {
      i := CountedIsThere(es[..|es| - 1], p);
    }
  }

  /** As long as a request is pending and no start has come, one is on its way. */
  lemma {:induction false} PendingOrBegun(s: State, es: seq<Event>)
    requires Valid(s, es) && s.manual
    ensures Count(es, IsManualStart) > 0 || After(s, es).manual || After(s, es).worker == Received(true)
  {
    if es != [] {
      PendingOrBegun(s, es[..|es| - 1]);
    }
  }

  lemma {:induction false} ExitedForGood(s: State, es: seq<Event>)
    requires Valid(s, es) && s.worker == Exited && !s.manual && ManualClosed(s)
    ensures After(s, es).worker == Exited && !After(s, es).manual && ManualClosed(After(s, es))
    ensures Count(es, IsStart) == 0
  {
    if es != [] {
      ExitedForGood(s, es[..|es| - 1]);
    }
  }

  lemma {:induction false} ExitIsClosed(es: seq<Event>)
    requires Valid(Init(), es)
    ensures var s := After(Init(), es);
      && (s.worker == Exited ==> !s.manual && ManualClosed(s))
      && (s.stopping == Returned ==> s.worker == Exited)
  {
    if es != [] {
      ExitIsClosed(es[..|es| - 1]);
    }
  }

  /** No call of Run is in vain: if the goroutine has ended by now, then after any earlier call of
      Run, slot full or not, `fn` was started on a manual request. */
  lemma RunIsServed(es: seq<Event>, k: nat) returns (i: nat)
    requires Valid(Init(), es) && k < |es| && es[k] == Run && After(Init(), es).worker == Exited
    ensures k < i < |es| && es[i] == Begin(true)
  {
    ValidSplit(Init(), es, k + 1);
    ValidSplit(Init(), es[..k + 1], k);
    assert es[..k + 1][..k] == es[..k];
    var s, rest := After(Init(), es[..k + 1]), es[k + 1..];
    PendingOrBegun(s, rest);
    ExitIsClosed(es);
    var j := CountedIsThere(rest, IsManualStart);
    i := k + 1 + j;
  }

  // ---------------------------------------------------------------- scheduled runs

  /** Ticks that did not find one pending. */
  function AcceptedTicks(s: State, es: seq<Event>): nat
    requires Valid(s, es)
  {
    if es == [] then 0
    else AcceptedTicks(s, es[..|es| - 1]) + if es[|es| - 1] == Tick && !After(s, es[..|es| - 1]).tick then 1 else 0
  }

  /** A tick that no start of `fn` has answered yet. */
  function OwedTick(s: State): nat {
    (if s.tick then 1 else 0) + (if s.worker == Received(false) then 1 else 0)
  }

  /** Every accepted tick is answered by exactly one start, at once or later. */
  lemma {:induction false} TickStartsAreAccepted(s: State, es: seq<Event>)
    requires Valid(s, es)
    ensures OwedTick(s) + AcceptedTicks(s, es) == Count(es, IsTickStart) + OwedTick(After(s, es))
  {
    if es != [] {
      TickStartsAreAccepted(s, es[..|es| - 1]);
    }
  }

  lemma {:induction false} TickPendingOrBegun(s: State, es: seq<Event>)
    requires Valid(s, es) && s.tick
    ensures Count(es, IsTickStart) > 0 || After(s, es).tick || After(s, es).worker == Received(false)
  {
    if es != [] {
      TickPendingOrBegun(s, es[..|es| - 1]);
    }
  }

  /** No tick is in vain: after it `fn` is started on a tick, or that start is still to come. */
  lemma TickIsServed(es: seq<Event>, k: nat)
    requires Valid(Init(), es) && k < |es| && es[k] == Tick
    ensures (exists i :: k < i < |es| && es[i] == Begin(false))
      || After(Init(), es).tick || After(Init(), es).worker == Received(false)
  {
    ValidSplit(Init(), es, k + 1);
    ValidSplit(Init(), es[..k + 1], k);
    assert es[..k + 1][..k] == es[..k];
    var s, rest := After(Init(), es[..k + 1]), es[k + 1..];
    TickPendingOrBegun(s, rest);
    if Count(rest, IsTickStart) > 0 {
      var j := CountedIsThere(rest, IsTickStart);
      assert es[k + 1 + j] == Begin(false);
    }
  }

  lemma Extend(s: State, es: seq<Event>, e: Event)
    requires Valid(s, es) && Enabled(After(s, es), e)
    ensures Valid(s, es + [e]) && After(s, es + [e]) == Next(After(s, es), e)
  {
    assert (es + [e])[..|es + [e]| - 1] == es;
  }

  /** The runner runs on its interval and on demand: whenever a started goroutine waits, and Stop has
      not been called, a tick or a call of Run gets `fn` started. */
  lemma TriggersReach(es: seq<Event>)
    requires Valid(Init(), es) && After(Init(), es).worker == Selecting && After(Init(), es).stopping == NotCalled
    ensures Valid(Init(), es + [Tick] + [TakeTick] + [Begin(false)])
    ensures Valid(Init(), es + [Run] + [TakeManual] + [Begin(true)])
  {
    Extend(Init(), es, Tick);
    Extend(Init(), es + [Tick], TakeTick);
    Extend(Init(), es + [Tick] + [TakeTick], Begin(false));
    Extend(Init(), es, Run);
    Extend(Init(), es + [Run], TakeManual);
    Extend(Init(), es + [Run] + [TakeManual], Begin(true));
  }

  /** Start, and the statements of Stop one after another, wait for nothing but the goroutine's end. */
  lemma CallsArePossible(es: seq<Event>)
    requires Valid(Init(), es)
    ensures After(Init(), es).worker == NotStarted ==>
      Valid(Init(), es + [Start]) && After(Init(), es + [Start]).worker == Selecting
    ensures After(Init(), es).stopping == NotCalled ==> Valid(Init(), es + [StopTicker] + [Close])
    ensures After(Init(), es).stopping == Closed && After(Init(), es).worker == Exited ==> Valid(Init(), es + [Return])
  {
    if After(Init(), es).worker == NotStarted { Extend(Init(), es, Start); }
    if After(Init(), es).stopping == NotCalled {
      Extend(Init(), es, StopTicker);
      Extend(Init(), es + [StopTicker], Close);
    }
    if After(Init(), es).stopping == Closed && After(Init(), es).worker == Exited { Extend(Init(), es, Return); }
  }

  /** The goroutine runs exactly from the call of Start on, and waits between two runs of `fn`: it
      goes on as long as anything is to be done. */
  lemma WorkerGoesOn(s: State) returns (e: Event)
    requires s.worker != NotStarted && s.worker != Exited
    requires s.worker == Selecting ==> s.tick || s.manual || ManualClosed(s)
    ensures Enabled(s, e) && IsWork(e)
  {
    match s.worker
    case Selecting => e := if s.tick then TakeTick else if s.manual then TakeManual else SeeClosed;
    case Received(manual) => e := Begin(manual);
    case Running => e := End;
  }

  // ---------------------------------------------------------------- shutdown

  function Bit(b: bool): nat {
    if b then 1 else 0
  }

  /** How many starts of `fn` are still to come once the manual channel is closed. */
  function Pending(s: State): nat {
    Bit(s.tick) + Bit(s.manual) + Bit(s.worker.Received?)
  }

  lemma PendingStep(s: State, e: Event)
    requires ManualClosed(s) && Enabled(s, e)
    ensures ManualClosed(Next(s, e)) && Pending(Next(s, e)) == Pending(s) - Bit(IsStart(e))
  {
  }

  /** After the close, each start uses up a pending item: at most one tick, one manual request,
      and one item already received. The tick may also be left over when the goroutine ends. */
  lemma {:induction false} StartsAfterClose(s: State, es: seq<Event>)
    requires Valid(s, es) && ManualClosed(s)
    ensures ManualClosed(After(s, es))
    ensures Count(es, IsStart) + Pending(After(s, es)) == Pending(s)
  {
    if es != [] {
      StartsAfterClose(s, es[..|es| - 1]);
      PendingStep(After(s, es[..|es| - 1]), es[|es| - 1]);
    }
  }

  lemma AtMostThreeStarts(es: seq<Event>, k: nat)
    requires Valid(Init(), es) && k < |es| && es[k] == Close
    ensures Count(es[k + 1..], IsStart) <= 3
  {
    ValidSplit(Init(), es, k + 1);
    ValidSplit(Init(), es[..k + 1], k);
    assert es[..k + 1][..k] == es[..k];
    StartsAfterClose(After(Init(), es[..k + 1]), es[k + 1..]);
  }

  /** Steps of the goroutine that are left after the close. */
  function Measure(s: State): nat {
    3 * (Bit(s.tick) + Bit(s.manual))
    + match s.worker
      case NotStarted => 2
      case Selecting => 1
      case Received(_) => 3
      case Running => 2
      case Exited => 0
  }

  predicate IsWork(e: Event) {
    e == TakeTick || e == TakeManual || e == SeeClosed || e.Begin? || e == End
  }

  /** Stop returns: after the close every step of the goroutine lowers the measure, no other
      step raises it, and a started goroutine that has not ended can always take one (the End of
      a running `fn` is `fn`'s own doing). */
  lemma ShutdownProgress(s: State, e: Event)
    requires ManualClosed(s) && Enabled(s, e)
    ensures IsWork(e) ==> Measure(Next(s, e)) < Measure(s)
    ensures !IsWork(e) ==> Measure(Next(s, e)) <= Measure(s)
    ensures Measure(Next(s, e)) < Measure(s) || e == Return
  {
  }

  lemma ShutdownCanGoOn(s: State) returns (e: Event)
    requires ManualClosed(s) && s.worker != NotStarted && s.stopping != Returned
    ensures Enabled(s, e) && (IsWork(e) || (e == Return && s.worker == Exited))
  {
    match s.worker
    case Selecting => e := if s.manual then TakeManual else SeeClosed;
    case Received(manual) => e := Begin(manual);
    case Running => e := End;
    case Exited => e := Return;
  }

  /** Every run after the close is short, ... */
  lemma {:induction false} ShutdownEnds(s: State, es: seq<Event>)
    requires Valid(s, es) && s.stopping == Closed
    ensures ManualClosed(After(s, es))
    ensures |es| <= Measure(s) - Measure(After(s, es)) + Bit(After(s, es).stopping == Returned)
  {
    if es != [] {
      ShutdownEnds(s, es[..|es| - 1]);
      ShutdownProgress(After(s, es[..|es| - 1]), es[|es| - 1]);
    }
  }

  /** ... and once Stop has returned, `fn` is not running and never runs again. */
  lemma StoppedForGood(es: seq<Event>, k: nat)
    requires Valid(Init(), es) && k <= |es| && Valid(Init(), es[..k]) && After(Init(), es[..k]).stopping == Returned
    ensures After(Init(), es).worker == Exited && Count(es[k..], IsStart) == 0
  {
    ValidSplit(Init(), es, k);
    ExitIsClosed(es[..k]);
    ExitedForGood(After(Init(), es[..k]), es[k..]);
  }

  /** The goroutine exists exactly from Start on. So Stop of a runner that was never started waits,
      and returns only if Start is called meanwhile. */
  lemma {:induction false} StopNeedsStart(es: seq<Event>)
    requires Valid(Init(), es)
    ensures Start in es <==> After(Init(), es).worker != NotStarted
    ensures After(Init(), es).stopping == Returned ==> Start in es
  {
    if es != [] {
      var before := es[..|es| - 1];
      StopNeedsStart(before);
      assert es == before + [es[|es| - 1]];
    }
  }
}
