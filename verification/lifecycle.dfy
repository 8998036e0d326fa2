/** The life of an instance: websocket sessions (app/instance.go), the scheduled sweep and the
    cleaners (app/cleanup.go), and row insertion (app/spec.go), as one step machine. Sessions go
    through the takeover protocol of the expiry manager. Every worker holds copies of rows that it
    read earlier and writes back selected columns only. ExpireAndRemove is a step of its own; a shutdown
    takes it for every name before the last cleaners run (app/app.go). */
module Lifecycle {
  import opened ExpireMaps
  import opened Options
  import P = Takeover

  /** A step of the takeover protocol; sessions and channels are numbered. */
  type Call = P.Event<nat, nat>

  datatype Row = Row(active: bool, cleaned: bool, expiresAt: Option<int>)

  datatype Columns = Columns(active: bool, cleaned: bool, expiresAt: bool)

  const EXPIRES_AT := Columns(false, false, true)
  const ACTIVE := Columns(true, false, false)
  const ACTIVE_AND_CLEANED := Columns(true, true, false)

  /** instanceStore.Update(copy, columns...): the other columns keep their stored values. */
  function Updated(row: Row, copy: Row, columns: Columns): Row {
    Row(if columns.active then copy.active else row.active,
        if columns.cleaned then copy.cleaned else row.cleaned,
        if columns.expiresAt then copy.expiresAt else row.expiresAt)
  }

  // ---------------------------------------------------------------- sessions

  /** Where a handleInstance is: the steps between two consecutive effects. */
  datatype Pc = InAcquire | Entered | Cleared | Proxying | Proxied | ExpirySet | Stopped | Gone

  /** `cleared` tells whether the write that disables the expiry reached the database. */
  datatype Session = Session(name: string, pc: Pc, copy: Row, cleared: bool)

  /** What a session does to the world, as issued; errors are only logged by the source. */
  datatype Effect =
    | WriteExpiry(sid: nat, name: string, value: Option<int>)
    | StartContainer(sid: nat, name: string)
    | StopContainer(sid: nat, name: string)

  // ---------------------------------------------------------------- workers

  datatype Job = Sweep | CleanInactive | CleanLeftover | SpecClean | ForceMark

  /** The queries of the five jobs. */
  predicate Selects(job: Job, now: int, row: Row) {
    match job
    case Sweep => row.active && row.expiresAt.Some? && row.expiresAt.value < now
    case CleanInactive => !row.active && !row.cleaned
    case CleanLeftover => row.active
    case SpecClean => !row.cleaned
    case ForceMark => row.active || !row.cleaned
  }

  datatype Copy = Copy(name: string, row: Row)

  /** Where a worker is in its current row. */
  datatype Place = Begin | RemovingContainer | RemovingImage | Marking | Forcing

  datatype Worker = Worker(job: Job, todo: seq<Copy>, at: Place)

  /** How one step of a worker comes out. A failed call may or may not have taken effect. */
  datatype Outcome = Ok | NotFound | Failed(effect: bool)

  datatype State = State(
    manager: P.State<nat, nat>,
    rows: map<string, Row>,
    containers: set<string>,
    sessions: map<nat, Session>,
    workers: map<nat, Worker>,
    log: seq<Effect>)

  function Start(): State {
    State.State(P.Init<nat, nat>(), map[], {}, map[], map[], [])
  }

  datatype Event =
    | Create(name: string, expires: int)
    | Open(sid: nat, chan: nat, name: string, copy: Row)
    | Grant(sid: nat)
    | Clear(sid: nat, applied: bool)
    | Run(sid: nat)
    | Hangup(sid: nat, expires: int)
    | SetExpiry(sid: nat, applied: bool)
    | Stop(sid: nat)
    | Leave(sid: nat)
    | Tick(batch: seq<Entry<nat>>)
    | Remove(name: string)
    | Find(w: nat, job: Job, now: int, todo: seq<Copy>)
    | Step(w: nat, outcome: Outcome)

  predicate IsSession(e: Event) {
    e.Grant? || e.Clear? || e.Run? || e.Hangup? || e.SetExpiry? || e.Stop? || e.Leave?
  }

  ghost predicate Enabled(s: State, e: Event) {
    match e
    case Create(name, _) => name !in s.rows
    case Open(sid, chan, name, _) => name in s.rows && P.Enabled(s.manager, Call.Acquire(sid, chan, name, sid))
    case Grant(sid) => At(s, sid, InAcquire) && P.Enabled(s.manager, Call.Return(sid))
    case Clear(sid, _) => At(s, sid, Entered)
    case Run(sid) => At(s, sid, Cleared)
    case Hangup(sid, _) => At(s, sid, Proxying)
    case SetExpiry(sid, _) => At(s, sid, Proxied)
    case Stop(sid) => At(s, sid, ExpirySet)
    case Leave(sid) => At(s, sid, Stopped) && P.Enabled(s.manager, Call.Release(sid))
    case Tick(batch) => P.Enabled(s.manager, Call.Expire(batch))
    case Remove(_) => true
    case Find(w, job, now, todo) =>
      (w !in s.workers || s.workers[w].todo == []) && Snapshot(s, job, now, todo)
    case Step(w, outcome) => w in s.workers && s.workers[w].todo != [] && CanStep(s, s.workers[w], outcome)
  }

  ghost predicate At(s: State, sid: nat, pc: Pc) {
    sid in s.sessions && s.sessions[sid].pc == pc && s.sessions[sid].name in s.rows && sid in s.manager.calls
  }

  /** The result of a query: a current copy of each row that it selects, in some order. A clean
      request asks for the rows of one spec only. */
  ghost predicate Snapshot(s: State, job: Job, now: int, todo: seq<Copy>) {
    && (forall i :: 0 <= i < |todo| ==>
          todo[i].name in s.rows && todo[i].row == s.rows[todo[i].name] && Selects(job, now, todo[i].row))
    && (forall i, j :: 0 <= i < j < |todo| ==> todo[i].name != todo[j].name)
    && (job != SpecClean ==> forall n :: n in s.rows && Selects(job, now, s.rows[n]) ==> Mentions(todo, n))
  }

  predicate Mentions(todo: seq<Copy>, n: string) {
    exists i :: 0 <= i < |todo| && todo[i].name == n
  }

  ghost predicate CanStep(s: State, w: Worker, outcome: Outcome)
    requires w.todo != []
  {
    && w.todo[0].name in s.rows
    && (outcome.NotFound? ==> (w.at == RemovingContainer && w.todo[0].name !in s.containers) || w.at == RemovingImage)
  }

  function Moved(s: State, sid: nat, pc: Pc): State
    requires sid in s.sessions
  {
    s.(sessions := s.sessions[sid := s.sessions[sid].(pc := pc)])
  }

  /** Update of the ExpiresAt column from the session's own copy. */
  function Written(s: State, sid: nat, applied: bool): State
    requires sid in s.sessions && s.sessions[sid].name in s.rows
  {
    var x := s.sessions[sid];
    s.(rows := if applied then s.rows[x.name := Updated(s.rows[x.name], x.copy, EXPIRES_AT)] else s.rows,
       log := s.log + [WriteExpiry(sid, x.name, x.copy.expiresAt)])
  }

  function SessionNext(s: State, e: Event): State
    requires IsSession(e) && e.sid in s.sessions && s.sessions[e.sid].name in s.rows && e.sid in s.manager.calls
  {
    var x := s.sessions[e.sid];
    match e
    case Grant(sid) =>
      s.(manager := P.Next(s.manager, Call.Return(sid)),
         sessions := s.sessions[sid := x.(pc := Entered, copy := x.copy.(expiresAt := None))])
    case Clear(sid, applied) =>
      var s1 := Written(s, sid, applied);
      s1.(sessions := s.sessions[sid := x.(pc := Cleared, cleared := applied)])
    case Run(sid) => Moved(s, sid, Proxying).(log := s.log + [StartContainer(sid, x.name)])
    case Hangup(sid, expires) =>
      s.(sessions := s.sessions[sid := x.(pc := Proxied, copy := x.copy.(expiresAt := Some(expires)))])
    case SetExpiry(sid, applied) => Moved(Written(s, sid, applied), sid, ExpirySet)
    case Stop(sid) => Moved(s, sid, Stopped).(log := s.log + [StopContainer(sid, x.name)])
    case Leave(sid) => Moved(s, sid, Gone).(manager := P.Next(s.manager, Call.Release(sid)))
  }

  /** One step of cleanInstance, of the sweep's loop body, or of the forced marking after it. */
  function WorkerNext(s: State, id: nat, outcome: Outcome): State
    requires id in s.workers && s.workers[id].todo != [] && s.workers[id].todo[0].name in s.rows
  {
    var w := s.workers[id];
    var name, copy := w.todo[0].name, w.todo[0].row;
    var applied := outcome.Ok? || (outcome.Failed? && outcome.effect);
    var next := w.(todo := w.todo[1..], at := Begin);
    var giveUp := if w.job == ForceMark then w.(at := Forcing) else next;
    if w.job == Sweep then
      Put(Store(s, name, copy.(active := false), ACTIVE, applied), id, next)
    else match w.at
      case Begin => Put(s, id, w.(at := RemovingContainer))
      case RemovingContainer =>
        var s1 := s.(containers := if applied then s.containers - {name} else s.containers);
        Put(s1, id, if outcome.Failed? then giveUp else w.(at := RemovingImage))
      case RemovingImage => Put(s, id, if outcome.Failed? then giveUp else w.(at := Marking))
      case Marking =>
        Put(Store(s, name, copy.(active := false, cleaned := true), ACTIVE_AND_CLEANED, applied), id, giveUp)
      case Forcing =>
        Put(Store(s, name, copy.(active := false, cleaned := true), ACTIVE_AND_CLEANED, applied), id, next)
  }

  function Store(s: State, name: string, copy: Row, columns: Columns, applied: bool): State
    requires name in s.rows
  {
    if applied then s.(rows := s.rows[name := Updated(s.rows[name], copy, columns)]) else s
  }

  function Put(s: State, id: nat, w: Worker): State {
    s.(workers := s.workers[id := w])
  }

  function Next(s: State, e: Event): State
    requires IsSession(e) ==> e.sid in s.sessions && s.sessions[e.sid].name in s.rows && e.sid in s.manager.calls
    requires e.Step? ==> e.w in s.workers && s.workers[e.w].todo != [] && s.workers[e.w].todo[0].name in s.rows
  {
    match e
    case Create(name, expires) =>
      s.(rows := s.rows[name := Row(true, false, Some(expires))], containers := s.containers + {name})
    case Open(sid, chan, name, copy) =>
      s.(manager := P.Next(s.manager, Call.Acquire(sid, chan, name, sid)),
         sessions := s.sessions[sid := Session(name, InAcquire, copy, false)])
    case Tick(batch) => s.(manager := P.Next(s.manager, Call.Expire(batch)))
    case Remove(name) => s.(manager := P.Next(s.manager, Call.Remove(name)))
    case Find(w, job, _, todo) => Put(s, w, Worker(job, todo, Begin))
    case Step(w, outcome) => WorkerNext(s, w, outcome)
    case _ => SessionNext(s, e)
  }
}
