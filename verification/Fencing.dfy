/**
 * Requests interleaved step by step: each step is one locked section of the source, one gate
 * movement, or one clock reading, taken by one thread.
 */
module Fencing {
  import opened Optional
  import opened Security
  import FairGate

  datatype ControlOp =
    | GrantAccess(project: string, actor: string)
    | RevokeAccess(project: string, actor: string)
    | InstallProfile(authority: Authority, config: Config)
    | ReplaceProfile(handle: Handle, config: Config)
    | SuspendProfile(handle: Handle, suspended: bool)

  /** What a preparing request remembers between its two looks at the state. */
  datatype Sight = Sight(epoch: nat, registration: Registration)

  datatype Job =
    | Control(op: ControlOp)
    | Enrol(handle: Handle, seen: Option<nat>)
    | Prepare(authority: Authority, session: Session, project: string, reg: nat, sight: Option<Sight>)
    | Publish(serial: nat, record: Permit, timed: bool, validated: bool)
    | Finished(project: string)

  /** How far a publisher is with a permit it has consumed but not yet taken to the gate. */
  datatype Stage = Fresh | Timed | Cleared

  datatype Thread =
    | Idle
    | Carrying(serial: nat, record: Permit, stage: Stage)
    | Waiting(job: Job)
    | Inside(job: Job)

  /** A Ref moved: the permit it was moved under, the security state at that instant, and the clock reading. */
  datatype Move = Move(serial: nat, permit: Permit, state: State, at: int)

  datatype Issued = Issued(registration: nat, permit: nat)

  datatype System = System(
    state: State,
    gates: map<string, FairGate.Gate>,
    threads: map<nat, Thread>,
    handles: set<Handle>,
    issued: seq<Issued>,
    burned: seq<nat>,
    moves: seq<Move>)

  function At(s: System, t: nat): Thread { if t in s.threads then s.threads[t] else Idle }

  function With(s: System, t: nat, th: Thread): System { s.(threads := s.threads[t := th]) }

  function OpProject(op: ControlOp): string {
    match op
    case GrantAccess(project, _) => project
    case RevokeAccess(project, _) => project
    case InstallProfile(_, config) => config.project
    case ReplaceProfile(_, config) => config.project
    case SuspendProfile(handle, _) => handle.project
  }

  function ProjectOf(job: Job): string {
    match job
    case Control(op) => OpProject(op)
    case Enrol(handle, _) => handle.project
    case Prepare(_, _, project, _, _) => project
    case Publish(_, record, _, _) => record.project
    case Finished(project) => project
  }

  function ApplyOp(s: State, op: ControlOp): Option<State> {
    match op
    case GrantAccess(project, actor) => Grant(s, project, actor)
    case RevokeAccess(project, actor) => Revoke(s, project, actor)
    case InstallProfile(authority, config) => Install(s, authority, config)
    case ReplaceProfile(handle, config) => Replace(s, handle, config)
    case SuspendProfile(handle, suspended) => SetSuspended(s, handle, suspended)
  }

  // ----- Actions -----

  /** One reading of the outside world: the clock, the grant's expiry, the current head, and Core's own verdict. */
  datatype Reading = Reading(now: int, grantExpires: int, head: string, ttl: int, coreAgrees: bool)

  datatype Action =
    | Ask(job: Job)
    | Consume(authority: Authority, login: Option<Session>, serial: nat)
    | CheckTime(now: int)
    | CheckLive
    | GiveUp
    | Queue
    | Enter
    | Work(reading: Reading)
    | Leave

  /** The jobs a caller can ask for. Handles are only ever ones the application handed out. */
  predicate Askable(s: System, job: Job) {
    match job
    case Control(ReplaceProfile(handle, _)) => handle in s.handles
    case Control(SuspendProfile(handle, _)) => handle in s.handles
    case Control(_) => true
    case Enrol(handle, seen) => handle in s.handles && seen.None?
    case Prepare(_, _, _, _, sight) => sight.None?
    case _ => false
  }

  function TakeTicket(s: System, t: nat, job: Job): System {
    var p := ProjectOf(job);
    if p !in s.gates || !FairGate.CanTake(s.gates[p], t) then With(s, t, Idle)
    else With(s, t, Waiting(job)).(gates := s.gates[p := FairGate.Take(s.gates[p], t)])
  }

  function ConsumeStep(s: System, t: nat, authority: Authority, session: Session, serial: nat): System {
    match Burn(s.state, authority, serial)
    case None => s
    case Some((record, state)) =>
      var n := s.(state := state, burned := s.burned + [serial]);
      if record.session == session then With(n, t, Carrying(serial, record, Fresh)) else n
  }

  function EnterStep(s: System, t: nat, job: Job): System {
    var p := ProjectOf(job);
    if p in s.gates && FairGate.CanEnter(s.gates[p], t) then
      With(s, t, Inside(job)).(gates := s.gates[p := FairGate.Enter(s.gates[p], t)])
    else s
  }

  /** Dropping the guard, after success or at any failure. */
  function LeaveStep(s: System, t: nat, job: Job): System {
    var p := ProjectOf(job);
    if p in s.gates && FairGate.CanLeave(s.gates[p], t) then
      With(s, t, Idle).(gates := s.gates[p := FairGate.Leave(s.gates[p], t)])
    else s
  }

  function Step(s: System, t: nat, a: Action): System {
    match (At(s, t), a)
    case (Idle, Ask(job)) => if Askable(s, job) then TakeTicket(s, t, job) else s
    case (Idle, Consume(authority, login, serial)) =>
      // Authentication comes first, and its failure consumes nothing.
      if login.Some? then ConsumeStep(s, t, authority, login.value, serial) else s
    case (Carrying(serial, record, Fresh), CheckTime(now)) =>
      if InTime(record, record.lastObserved, now) then With(s, t, Carrying(serial, record.(lastObserved := now), Timed))
      else With(s, t, Idle)
    case (Carrying(serial, record, Timed), CheckLive) =>
      if record.authority.Human? then s
      else if Live(s.state, record, record.session.actor) then With(s, t, Carrying(serial, record, Cleared))
      else With(s, t, Idle)
    case (Carrying(_, _, _), GiveUp) => With(s, t, Idle)
    case (Carrying(serial, record, stage), Queue) =>
      // A human decision goes straight to the gate; an AI execution runs in between.
      if stage.Cleared? || (stage.Timed? && record.authority.Human?)
      then TakeTicket(s, t, Publish(serial, record, false, false)) else s
    case (Waiting(job), Enter) => EnterStep(s, t, job)
    case (Inside(job), Work(r)) => WorkStep(s, t, job, r)
    case (Inside(job), Leave) => LeaveStep(s, t, job)
    case _ => s
  }

  // ----- Work done while holding the gate -----

  function WorkStep(s: System, t: nat, job: Job, r: Reading): System {
    match job
    case Control(op) => ControlStep(s, t, op)
    case Enrol(h, seen) => EnrolStep(s, t, h, seen, r)
    case Prepare(authority, session, project, reg, sight) =>
      PrepareStep(s, t, authority, session, project, reg, sight, r)
    case Publish(serial, record, timed, validated) => PublishStep(s, t, serial, record, timed, validated, r)
    case Finished(_) => s
  }

  function ControlStep(s: System, t: nat, op: ControlOp): System {
    var done := With(s, t, Inside(Finished(OpProject(op))));
    match ApplyOp(s.state, op)
    case None => done
    case Some(next) =>
      done.(state := next,
            handles :=
              if op.InstallProfile? then s.handles + {Handle(op.authority, op.config.project, s.state.nextSerial)}
                       else s.handles)
  }

  function EnrolStep(s: System, t: nat, h: Handle, seen: Option<nat>, r: Reading): System {
    var done := With(s, t, Inside(Finished(h.project)));
    match seen
    case None =>
      if Usable(s.state, h) then With(s, t, Inside(Enrol(h, Some(s.state.profiles[h.serial].generation)))) else done
    case Some(generation) =>
      match Register(s.state, h, generation, r.head)
      case None => done
      case Some(next) => done.(state := next)
  }

  function PrepareStep(s: System, t: nat, authority: Authority, session: Session, project: string, reg: nat,
                       sight: Option<Sight>, r: Reading): System
  {
    var done := With(s, t, Inside(Finished(project)));
    match sight
    case None =>
      if Preparable(s.state, authority, session, project, reg) then
        With(s, t, Inside(Prepare(authority, session, project, reg,
                                  Some(Sight(s.state.projects[project].epoch, s.state.registrations[reg])))))
      else done
    case Some(seen) =>
      match DeadlineOf(authority, r.now, r.ttl, r.grantExpires)
      case None => done
      case Some(deadline) =>
        match Issue(s.state, authority, session, project, reg, seen.epoch, seen.registration, r.now, deadline,
                    r.grantExpires)
        case None => done
        case Some(next) => done.(state := next, issued := s.issued + [Issued(reg, s.state.nextSerial)])
  }

  function PublishStep(s: System, t: nat, serial: nat, record: Permit, timed: bool, validated: bool,
                       r: Reading): System {
    var done := With(s, t, Inside(Finished(record.project)));
    if !timed then
      if InTime(record, record.lastObserved, r.now)
      then With(s, t, Inside(Publish(serial, record.(lastObserved := r.now), true, false))) else done
    else if !validated then
      if Live(s.state, record, record.session.actor) then With(s, t, Inside(Publish(serial, record, true, true)))
      else done
    else if r.coreAgrees && CoreAllows(record, DeadlineReading(record, record.lastObserved, r.now)) then
      done.(moves := s.moves + [Move(serial, record, s.state, r.now)])
    else done
  }

  // ----- Runs -----

  datatype Event = Event(thread: nat, action: Action)

  function Initial(projects: set<string>): System {
    System(State(1, map p | p in projects :: ProjectSecurity(0, {}), map[], map[], map[]),
           map p | p in projects :: FairGate.CLOSED, map[], {}, [], [], [])
  }

  function Run(projects: set<string>, events: seq<Event>): System {
    if events == [] then Initial(projects)
    else
      var last := events[|events| - 1];
      Step(Run(projects, events[..|events| - 1]), last.thread, last.action)
  }
}
