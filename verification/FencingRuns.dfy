/** What holds in every reachable state of the interleaved system, and so at the instant any Ref is moved. */
module FencingRuns {
  import opened Optional
  import opened Security
  import opened Fencing
  import opened FencingState
  import FairGate

  // ----- Threads -----

  predicate JobOk(s: State, handles: set<Handle>, job: Job) {
    match job
    case Control(op) => HandlesOf(op, handles)
    case Enrol(handle, _) => handle in handles
    case Prepare(authority, _, project, _, sight) =>
      sight.Some? ==> sight.value.registration.project == project && sight.value.registration.authority == authority
    case Publish(_, record, timed, validated) => Fenced(s, record) && (validated ==> timed && Current(s, record))
    case Finished(_) => true
  }

  predicate ThreadOk(s: State, handles: set<Handle>, th: Thread) {
    match th
    case Idle => true
    case Carrying(_, record, _) => Fenced(s, record)
    case Waiting(job) => JobOk(s, handles, job) && !Validated(th)
    case Inside(job) => JobOk(s, handles, job)
  }

  predicate Validated(th: Thread) { (th.Waiting? || th.Inside?) && th.job.Publish? && th.job.validated }

  predicate ThreadsOk(s: System) { forall t | t in s.threads :: ThreadOk(s.state, s.handles, s.threads[t]) }

  // ----- Gates -----

  predicate Seated(th: Thread) { th.Waiting? || th.Inside? }

  /** A thread has a seat at exactly the gate of the project its job is about. */
  predicate SeatOk(s: System, t: nat, p: string)
    requires p in s.gates
  {
    var th, seats := At(s, t), s.gates[p].seats;
    && (t in seats <==> Seated(th) && ProjectOf(th.job) == p)
    && (t in seats ==> seats[t].inside == th.Inside?)
  }

  ghost predicate GatesOk(s: System) {
    && (forall p | p in s.gates :: FairGate.Ok(s.gates[p]))
    && (forall p, t: nat | p in s.gates :: SeatOk(s, t, p))
    && (forall t | t in s.threads && Seated(s.threads[t]) :: ProjectOf(s.threads[t].job) in s.gates)
  }

  /** Two threads working on one project are the same thread. */
  lemma OneInside(s: System, t: nat, u: nat)
    requires GatesOk(s) && At(s, t).Inside? && At(s, u).Inside? && ProjectOf(At(s, t).job) == ProjectOf(At(s, u).job)
    ensures t == u
  {
    hide FairGate.Ok;
    var p := ProjectOf(At(s, t).job);
    assert SeatOk(s, t, p) && SeatOk(s, u, p);
    FairGate.OneHolder(s.gates[p], t, u);
  }

  // ----- History -----

  /** At the move, everything the permit was issued under was still in force, and the deadline had not passed. */
  predicate MoveOk(m: Move) {
    WellIssued(m.permit) && Current(m.state, m.permit) && m.permit.lastObserved <= m.at < m.permit.notAfter
  }

  predicate Distinct<T(==)>(xs: seq<T>) { forall i, j | 0 <= i < j < |xs| :: xs[i] != xs[j] }

  predicate Carries(th: Thread, serial: nat) {
    (th.Carrying? && th.serial == serial) || (Seated(th) && th.job.Publish? && th.job.serial == serial)
  }

  /** Serials are spent once: a burned permit is gone, and whoever carries one is its only carrier. */
  predicate HistoryOk(s: System) {
    && (forall i | 0 <= i < |s.moves| :: MoveOk(s.moves[i]) && s.moves[i].serial in s.burned)
    && (forall i, j | 0 <= i < j < |s.moves| :: s.moves[i].serial != s.moves[j].serial)
    && Distinct(s.burned) && (forall b | b in s.burned :: b < s.state.nextSerial && b !in s.state.permits)
    && (forall i | 0 <= i < |s.issued| ::
          && s.issued[i].permit < s.state.nextSerial && s.issued[i].registration < s.state.nextSerial
          && s.issued[i].registration !in s.state.registrations)
    && (forall i, j | 0 <= i < j < |s.issued| ::
          s.issued[i].permit != s.issued[j].permit && s.issued[i].registration != s.issued[j].registration)
  }

  ghost predicate CarriersOk(s: System) {
    && (forall t, b | t in s.threads && Carries(s.threads[t], b) ::
          b in s.burned && forall i | 0 <= i < |s.moves| :: s.moves[i].serial != b)
    && (forall t, u, b | t in s.threads && u in s.threads && Carries(s.threads[t], b) && Carries(s.threads[u], b) ::
          t == u)
  }

  ghost predicate Invariant(s: System) {
    StateOk(s.state, s.handles) && ThreadsOk(s) && GatesOk(s) && HistoryOk(s) && CarriersOk(s)
  }

  lemma InvariantStarts(projects: set<string>)
    ensures Invariant(Initial(projects))
  {
    FairGate.ClosedIsOk();
  }

  // ----- Threads under a change of state -----

  lemma ThreadSurvives(s: State, n: State, handles: set<Handle>, more: set<Handle>, project: string, th: Thread)
    requires Advances(s, n, project) && handles <= more && ThreadOk(s, handles, th)
    requires Validated(th) ==> th.job.record.project != project
    ensures ThreadOk(n, more, th)
  {
    hide Advances, Fenced, WellIssued, Current;
    match th {
      case Carrying(_, record, _) => FenceHolds(s, n, project, record);
      case Idle =>
      case Waiting(job) => if job.Publish? { FenceHolds(s, n, project, job.record); }
      case Inside(job) =>
        if job.Publish? {
          FenceHolds(s, n, project, job.record);
          if job.validated {
            FencedProject(s, job.record);
            CurrentHolds(s, n, project, job.record);
          }
        }
    }
  }

  lemma FencedProject(s: State, p: Permit)
    requires Fenced(s, p)
    ensures p.issuedProfile.project == p.project
  {
  }

  /** Nothing a quiet step does can disturb another thread, validated or not. */
  lemma ThreadUntouched(s: State, n: State, handles: set<Handle>, th: Thread)
    requires ThreadOk(s, handles, th) && n.projects == s.projects && n.profiles == s.profiles
    ensures ThreadOk(n, handles, th)
  {
    hide WellIssued;
  }

  // ----- Steps of one thread alone -----

  predicate SameSeat(a: Thread, b: Thread) {
    && Seated(a) == Seated(b) && a.Inside? == b.Inside?
    && (Seated(a) ==> ProjectOf(a.job) == ProjectOf(b.job))
  }

  ghost predicate CarriesLess(a: Thread, b: Thread) { forall x :: Carries(b, x) ==> Carries(a, x) }

  lemma SeatsStay(s: System, t: nat, th: Thread)
    requires GatesOk(s) && SameSeat(At(s, t), th)
    ensures GatesOk(With(s, t, th))
  {
    hide FairGate.Ok, ProjectOf;
    var n := With(s, t, th);
    forall p, u: nat | p in n.gates ensures SeatOk(n, u, p) {
      assert SeatOk(s, u, p);
    }
  }

  lemma CarriersStay(s: System, t: nat, th: Thread)
    requires CarriersOk(s) && CarriesLess(At(s, t), th)
    ensures CarriersOk(With(s, t, th))
  {
    hide Carries;
    var n := With(s, t, th);
    NothingIdle();
    forall u, b | u in n.threads && Carries(n.threads[u], b) ensures u in s.threads && Carries(s.threads[u], b) {
    }
  }

  lemma NothingIdle()
    ensures forall b :: !Carries(Idle, b)
  {
  }

  lemma LocalStep(s: System, t: nat, th: Thread)
    requires Invariant(s) && ThreadOk(s.state, s.handles, th) && SameSeat(At(s, t), th) && CarriesLess(At(s, t), th)
    ensures Invariant(With(s, t, th))
  {
    hide ThreadOk, StateOk, GatesOk, CarriersOk, MoveOk, SameSeat, CarriesLess;
    SeatsStay(s, t, th);
    CarriersStay(s, t, th);
  }

  lemma ThreadIsOk(s: System, t: nat)
    requires ThreadsOk(s)
    ensures ThreadOk(s.state, s.handles, At(s, t))
  {
  }

  // ----- Gate steps -----

  lemma TakeTicketKeeps(s: System, t: nat, job: Job)
    requires Invariant(s) && !Seated(At(s, t)) && ThreadOk(s.state, s.handles, Waiting(job))
    requires CarriesLess(At(s, t), Waiting(job))
    ensures Invariant(TakeTicket(s, t, job))
  {
    hide ThreadOk, StateOk, CarriersOk, HistoryOk, GatesOk, FairGate.CanTake, FairGate.Take, ProjectOf, CarriesLess;
    var p := ProjectOf(job);
    if p !in s.gates || !FairGate.CanTake(s.gates[p], t) {
      IdleIsOk(s.state, s.handles);
      GoIdle(s, t);
    } else {
      TicketGates(s, t, job);
      CarriersStay(s, t, Waiting(job));
      GatesDoNotCarry(With(s, t, Waiting(job)), TakeTicket(s, t, job));
      HistoryStays(s, TakeTicket(s, t, job));
    }
  }

  lemma GoIdle(s: System, t: nat)
    requires Invariant(s) && !Seated(At(s, t))
    ensures Invariant(With(s, t, Idle))
  {
    hide Invariant;
    NothingIdle();
    LocalStep(s, t, Idle);
  }

  lemma IdleIsOk(s: State, handles: set<Handle>)
    ensures ThreadOk(s, handles, Idle)
  {
  }

  lemma GatesDoNotCarry(a: System, b: System)
    requires CarriersOk(a) && b.threads == a.threads && b.moves == a.moves && b.burned == a.burned
    ensures CarriersOk(b)
  {
    hide Carries;
  }

  lemma HistoryStays(a: System, b: System)
    requires HistoryOk(a) && b.state == a.state && b.moves == a.moves && b.burned == a.burned && b.issued == a.issued
    ensures HistoryOk(b)
  {
    hide MoveOk;
  }

  lemma TicketGates(s: System, t: nat, job: Job)
    requires GatesOk(s) && !Seated(At(s, t)) && ProjectOf(job) in s.gates
             && FairGate.CanTake(s.gates[ProjectOf(job)], t)
    ensures GatesOk(TakeTicket(s, t, job))
  {
    hide FairGate.Ok;
    var p := ProjectOf(job);
    var n := TakeTicket(s, t, job);
    FairGate.TakeKeeps(s.gates[p], t);
    forall q, u: nat | q in n.gates ensures SeatOk(n, u, q) {
      assert SeatOk(s, u, q);
    }
  }

  lemma EnterKeeps(s: System, t: nat, job: Job)
    requires Invariant(s) && At(s, t) == Waiting(job)
    ensures Invariant(EnterStep(s, t, job))
  {
    hide StateOk, CarriersOk, HistoryOk, GatesOk, FairGate.CanEnter, FairGate.Enter, ProjectOf, JobOk;
    var p := ProjectOf(job);
    if p in s.gates && FairGate.CanEnter(s.gates[p], t) {
      EnterGates(s, t, job);
      CarriersStay(s, t, Inside(job));
      GatesDoNotCarry(With(s, t, Inside(job)), EnterStep(s, t, job));
      HistoryStays(s, EnterStep(s, t, job));
    }
  }

  lemma EnterGates(s: System, t: nat, job: Job)
    requires GatesOk(s) && At(s, t) == Waiting(job) && ProjectOf(job) in s.gates
             && FairGate.CanEnter(s.gates[ProjectOf(job)], t)
    ensures GatesOk(EnterStep(s, t, job))
  {
    hide FairGate.Ok;
    var p := ProjectOf(job);
    var n := EnterStep(s, t, job);
    FairGate.EnterKeeps(s.gates[p], t);
    forall q, u: nat | q in n.gates ensures SeatOk(n, u, q) {
      assert SeatOk(s, u, q);
    }
  }

  lemma LeaveKeeps(s: System, t: nat, job: Job)
    requires Invariant(s) && At(s, t) == Inside(job)
    ensures Invariant(LeaveStep(s, t, job))
  {
    hide StateOk, CarriersOk, HistoryOk, GatesOk, FairGate.CanLeave, FairGate.Leave, ProjectOf, JobOk;
    var p := ProjectOf(job);
    if p in s.gates && FairGate.CanLeave(s.gates[p], t) {
      LeaveGates(s, t, job);
      NothingIdle();
      CarriersStay(s, t, Idle);
      GatesDoNotCarry(With(s, t, Idle), LeaveStep(s, t, job));
      HistoryStays(s, LeaveStep(s, t, job));
    }
  }

  lemma LeaveGates(s: System, t: nat, job: Job)
    requires GatesOk(s) && At(s, t) == Inside(job) && ProjectOf(job) in s.gates
             && FairGate.CanLeave(s.gates[ProjectOf(job)], t)
    ensures GatesOk(LeaveStep(s, t, job))
  {
    hide FairGate.Ok;
    var p := ProjectOf(job);
    var n := LeaveStep(s, t, job);
    FairGate.LeaveKeeps(s.gates[p], t);
    forall q, u: nat | q in n.gates ensures SeatOk(n, u, q) {
      assert SeatOk(s, u, q);
    }
  }

  // ----- Steps that change the security state -----

  /** Nothing that was spent reappears. */
  predicate OnlyNew(s: State, n: State) {
    && s.nextSerial <= n.nextSerial
    && (forall k | k in n.permits :: k in s.permits || s.nextSerial <= k)
    && (forall k | k in n.registrations :: k in s.registrations || s.nextSerial <= k)
  }

  lemma HistorySurvives(s: System, b: System)
    requires HistoryOk(s) && OnlyNew(s.state, b.state) && b.moves == s.moves && b.burned == s.burned
             && b.issued == s.issued
    ensures HistoryOk(b)
  {
    hide MoveOk;
  }

  /** While a thread holds a project's gate, no validated publisher of that project exists to be disturbed. */
  lemma OthersSurvive(s: System, t: nat, n: State, more: set<Handle>)
    requires Invariant(s) && At(s, t).Inside? && !At(s, t).job.Publish?
    requires Advances(s.state, n, ProjectOf(At(s, t).job)) && s.handles <= more
    ensures ThreadsOk(s.(state := n, handles := more))
  {
    hide StateOk, GatesOk, HistoryOk, CarriersOk, Advances, ThreadOk, ProjectOf;
    var project := ProjectOf(At(s, t).job);
    forall u | u in s.threads ensures ThreadOk(n, more, s.threads[u]) {
      NotOnProject(s, t, u);
      ThreadSurvives(s.state, n, s.handles, more, project, s.threads[u]);
    }
  }

  lemma NotOnProject(s: System, t: nat, u: nat)
    requires GatesOk(s) && ThreadsOk(s) && At(s, t).Inside? && !At(s, t).job.Publish? && u in s.threads
    ensures Validated(s.threads[u]) ==> s.threads[u].job.record.project != ProjectOf(At(s, t).job)
  {
    hide GatesOk, JobOk;
    if Validated(s.threads[u]) && s.threads[u].job.record.project == ProjectOf(At(s, t).job) {
      OneInside(s, t, u);
    }
  }

  lemma StateChange(s: System, t: nat, n: State, more: set<Handle>)
    requires Invariant(s) && At(s, t).Inside? && !At(s, t).job.Publish?
    requires Advances(s.state, n, ProjectOf(At(s, t).job)) && s.handles <= more && StateOk(n, more)
             && OnlyNew(s.state, n)
    ensures Invariant(s.(state := n, handles := more))
  {
    hide StateOk, GatesOk, HistoryOk, CarriersOk, Advances, ThreadOk, ProjectOf, OnlyNew;
    var b := s.(state := n, handles := more);
    OthersSurvive(s, t, n, more);
    HistorySurvives(s, b);
    GatesIgnoreState(s, b);
    GatesDoNotCarry(s, b);
  }

  lemma GatesIgnoreState(a: System, b: System)
    requires GatesOk(a) && b.gates == a.gates && b.threads == a.threads
    ensures GatesOk(b)
  {
    hide FairGate.Ok, ProjectOf;
    forall p, t: nat | p in b.gates ensures SeatOk(b, t, p) {
      assert SeatOk(a, t, p);
    }
  }

  lemma Finish(s: System, t: nat, project: string)
    requires Invariant(s) && At(s, t).Inside? && ProjectOf(At(s, t).job) == project
    ensures Invariant(With(s, t, Inside(Finished(project))))
  {
    hide Invariant;
    LocalStep(s, t, Inside(Finished(project)));
  }

  lemma ControlKeeps(s: System, t: nat, op: ControlOp)
    requires Invariant(s) && At(s, t) == Inside(Control(op))
    ensures Invariant(ControlStep(s, t, op))
  {
    hide Invariant, StateOk, ApplyOp, Advances, OnlyNew;
    Parts(s, t);
    if ApplyOp(s.state, op).None? {
      Finish(s, t, OpProject(op));
    } else {
      var n := ApplyOp(s.state, op).value;
      var more := if op.InstallProfile?
                  then s.handles + {Handle(op.authority, op.config.project, s.state.nextSerial)} else s.handles;
      OpAdvances(s.state, s.handles, op);
      OpKeepsState(s.state, s.handles, op);
      OpAddsNothing(s.state, s.handles, op);
      StateChange(s, t, n, more);
      Finish(s.(state := n, handles := more), t, OpProject(op));
    }
  }

  lemma Parts(s: System, t: nat)
    requires Invariant(s)
    ensures StateOk(s.state, s.handles) && ThreadOk(s.state, s.handles, At(s, t))
  {
    hide StateOk, GatesOk, HistoryOk, CarriersOk, ThreadOk;
    ThreadIsOk(s, t);
  }

  lemma OpAddsNothing(s: State, handles: set<Handle>, op: ControlOp)
    requires StateOk(s, handles) && HandlesOf(op, handles) && ApplyOp(s, op).Some?
    ensures OnlyNew(s, ApplyOp(s, op).value)
  {
    hide ApplyOp, Fenced, RegistrationOk, HandleOk;
    OpKeepsRest(s, op);
    OpAdvances(s, handles, op);
  }

  lemma EnrolKeeps(s: System, t: nat, h: Handle, seen: Option<nat>, r: Reading)
    requires Invariant(s) && At(s, t) == Inside(Enrol(h, seen))
    ensures Invariant(EnrolStep(s, t, h, seen, r))
  {
    hide Invariant, StateOk, Advances, Register;
    Parts(s, t);
    if seen.None? {
      if Usable(s.state, h) {
        LocalStep(s, t, Inside(Enrol(h, Some(s.state.profiles[h.serial].generation))));
      } else {
        Finish(s, t, h.project);
      }
    } else if Register(s.state, h, seen.value, r.head).None? {
      Finish(s, t, h.project);
    } else {
      var n := Register(s.state, h, seen.value, r.head).value;
      RegisterKeepsState(s.state, s.handles, h, seen.value, r.head);
      RegisterAddsOne(s.state, h, seen.value, r.head);
      StateChange(s, t, n, s.handles);
      Finish(s.(state := n), t, h.project);
    }
  }

  lemma RegisterAddsOne(s: State, h: Handle, generation: nat, head: string)
    requires Register(s, h, generation, head).Some?
    ensures OnlyNew(s, Register(s, h, generation, head).value)
  {
  }

  lemma IssuedGrows(s: System, n: State, reg: nat)
    requires HistoryOk(s) && OnlyNew(s.state, n) && reg in s.state.registrations && reg !in n.registrations
    requires reg < s.state.nextSerial && n.nextSerial == s.state.nextSerial + 1
    ensures HistoryOk(s.(state := n, issued := s.issued + [Issued(reg, s.state.nextSerial)]))
  {
    hide MoveOk;
    HistorySurvives(s, s.(state := n));
  }

  lemma PrepareKeeps(s: System, t: nat, authority: Authority, session: Session, project: string, reg: nat,
                     sight: Option<Sight>, r: Reading)
    requires Invariant(s) && At(s, t) == Inside(Prepare(authority, session, project, reg, sight))
    ensures Invariant(PrepareStep(s, t, authority, session, project, reg, sight, r))
  {
    hide Invariant, StateOk, Advances, Issue, ProfileServes;
    Parts(s, t);
    if sight.None? {
      if Preparable(s.state, authority, session, project, reg) {
        LocalStep(s, t, Inside(Prepare(authority, session, project, reg,
                                       Some(Sight(s.state.projects[project].epoch, s.state.registrations[reg])))));
      } else {
        Finish(s, t, project);
      }
    } else if DeadlineOf(authority, r.now, r.ttl, r.grantExpires).None? {
      Finish(s, t, project);
    } else {
      IssueStepKeeps(s, t, authority, session, project, reg, sight.value, r);
    }
  }

  lemma IssueStepKeeps(s: System, t: nat, authority: Authority, session: Session, project: string, reg: nat,
                       seen: Sight, r: Reading)
    requires Invariant(s) && At(s, t) == Inside(Prepare(authority, session, project, reg, Some(seen)))
    requires DeadlineOf(authority, r.now, r.ttl, r.grantExpires).Some?
    ensures Invariant(PrepareStep(s, t, authority, session, project, reg, Some(seen), r))
  {
    hide Invariant, StateOk, Advances, Issue, HistoryOk;
    Parts(s, t);
    var deadline := DeadlineOf(authority, r.now, r.ttl, r.grantExpires).value;
    var issue :=
      Issue(s.state, authority, session, project, reg, seen.epoch, seen.registration, r.now, deadline, r.grantExpires);
    if issue.None? {
      Finish(s, t, project);
    } else {
      var n := issue.value;
      IssueKeepsState(s.state, s.handles, authority, session, project, reg, seen.epoch, seen.registration, r.now,
                      deadline, r.grantExpires);
      IssueSpends(s.state, authority, session, project, reg, seen.epoch, seen.registration, r.now, deadline,
                  r.grantExpires);
      StateChange(s, t, n, s.handles);
      Finish(s.(state := n), t, project);
      HistoryOf(s);
      IssuedGrows(s, n, reg);
      Relog(With(s.(state := n), t, Inside(Finished(project))), s.issued + [Issued(reg, s.state.nextSerial)],
            s.(state := n, issued := s.issued + [Issued(reg, s.state.nextSerial)]));
    }
  }

  lemma HistoryOf(s: System)
    requires Invariant(s)
    ensures HistoryOk(s)
  {
    hide StateOk, ThreadsOk, GatesOk, HistoryOk, CarriersOk;
  }

  /** Recording an issue changes nothing but the record. */
  lemma Relog(s: System, issued: seq<Issued>, like: System)
    requires Invariant(s) && HistoryOk(like)
    requires like.state == s.state && like.moves == s.moves && like.burned == s.burned && like.issued == issued
    ensures Invariant(s.(issued := issued))
  {
    hide StateOk, ThreadOk, GatesOk, CarriersOk, HistoryOk;
    var b := s.(issued := issued);
    HistoryStays(like, b);
    GatesIgnoreState(s, b);
    GatesDoNotCarry(s, b);
  }

  lemma IssueSpends(s: State, authority: Authority, session: Session, project: string, reg: nat,
                    epoch: nat, seen: Registration, issuedAt: int, notAfter: int, grantExpires: int)
    requires Issue(s, authority, session, project, reg, epoch, seen, issuedAt, notAfter, grantExpires).Some?
    ensures reg in s.registrations
    ensures OnlyNew(s, Issue(s, authority, session, project, reg, epoch, seen, issuedAt, notAfter, grantExpires).value)
  {
  }

  // ----- Publishing -----

  lemma PublishKeeps(s: System, t: nat, serial: nat, record: Permit, timed: bool, validated: bool, r: Reading)
    requires Invariant(s) && At(s, t) == Inside(Publish(serial, record, timed, validated))
    ensures Invariant(PublishStep(s, t, serial, record, timed, validated, r))
  {
    hide Invariant, StateOk, Live, Current, CoreAllows, DeadlineReading;
    Parts(s, t);
    if !timed {
      if InTime(record, record.lastObserved, r.now) {
        LocalStep(s, t, Inside(Publish(serial, record.(lastObserved := r.now), true, false)));
      } else {
        Finish(s, t, record.project);
      }
    } else if !validated {
      if Live(s.state, record, record.session.actor) {
        LiveMeansCurrent(s.state, record, record.session.actor);
        LocalStep(s, t, Inside(Publish(serial, record, true, true)));
      } else {
        Finish(s, t, record.project);
      }
    } else {
      Finish(s, t, record.project);
      if r.coreAgrees && CoreAllows(record, DeadlineReading(record, record.lastObserved, r.now)) {
        GuardKeepsTheDeadline(record, record.lastObserved, r.now);
        MoveKeeps(s, t, serial, record, r);
      }
    }
  }

  /** The move is logged while the security state still is the one the validation saw. */
  lemma MoveKeeps(s: System, t: nat, serial: nat, record: Permit, r: Reading)
    requires Invariant(s) && At(s, t) == Inside(Publish(serial, record, true, true))
             && InTime(record, record.lastObserved, r.now)
    ensures var moves := s.moves + [Move(serial, record, s.state, r.now)];
            Invariant(With(s, t, Inside(Finished(record.project))).(moves := moves))
  {
    hide StateOk, GatesOk, CarriersOk, HistoryOk, Current;
    var d := With(s, t, Inside(Finished(record.project)));
    var n := d.(moves := s.moves + [Move(serial, record, s.state, r.now)]);
    Finish(s, t, record.project);
    ThreadIsOk(s, t);
    MovesGrow(s, t, serial, Move(serial, record, s.state, r.now));
    HistoryStays(s.(moves := n.moves), n);
    GatesIgnoreState(d, n);
    MoverIsGone(s, t, serial, record, n);
  }

  lemma MovesGrow(s: System, t: nat, serial: nat, m: Move)
    requires HistoryOk(s) && CarriersOk(s) && Carries(At(s, t), serial) && MoveOk(m) && m.serial == serial
    ensures HistoryOk(s.(moves := s.moves + [m]))
  {
    hide MoveOk, Carries;
    NothingIdle();
    assert t in s.threads;
  }

  lemma MoverIsGone(s: System, t: nat, serial: nat, record: Permit, n: System)
    requires CarriersOk(s) && At(s, t) == Inside(Publish(serial, record, true, true))
    requires n.threads == s.threads[t := Inside(Finished(record.project))] && n.burned == s.burned
    requires exists m: Move :: n.moves == s.moves + [m] && m.serial == serial
    ensures CarriersOk(n)
  {
    assert Carries(s.threads[t], serial);
    forall u, b | u in n.threads && Carries(n.threads[u], b)
      ensures u in s.threads && u != t && Carries(s.threads[u], b) && b != serial
    {
    }
  }

  // ----- Consuming a permit -----

  lemma ConsumeKeeps(s: System, t: nat, authority: Authority, session: Session, serial: nat)
    requires Invariant(s) && At(s, t).Idle?
    ensures Invariant(ConsumeStep(s, t, authority, session, serial))
  {
    hide StateOk, GatesOk, CarriersOk, HistoryOk, ThreadOk, Fenced, Burn;
    var b := Burn(s.state, authority, serial);
    if b.Some? {
      var (record, state) := b.value;
      BurnKeepsState(s.state, s.handles, authority, serial);
      BurnIsQuiet(s.state, authority, serial);
      var n := s.(state := state, burned := s.burned + [serial]);
      forall u | u in s.threads ensures ThreadOk(state, s.handles, s.threads[u]) {
        ThreadUntouched(s.state, state, s.handles, s.threads[u]);
      }
      BurnedGrows(s, state, serial);
      GatesIgnoreState(s, n);
      CarriersOutlive(s, n, serial);
      if record.session == session {
        CarryingIsOk(state, s.handles, serial, record);
        TakeUp(s, n, t, serial, record);
      }
    }
  }

  lemma CarryingIsOk(s: State, handles: set<Handle>, serial: nat, record: Permit)
    requires Fenced(s, record)
    ensures ThreadOk(s, handles, Carrying(serial, record, Fresh))
  {
    hide Fenced;
  }

  lemma BurnIsQuiet(s: State, authority: Authority, serial: nat)
    requires Burn(s, authority, serial).Some?
    ensures var n := Burn(s, authority, serial).value.1;
            n.projects == s.projects && n.profiles == s.profiles && OnlyNew(s, n) && serial in s.permits
  {
  }

  lemma BurnedGrows(s: System, state: State, serial: nat)
    requires HistoryOk(s) && OnlyNew(s.state, state) && serial in s.state.permits && serial !in state.permits
    requires serial < s.state.nextSerial
    ensures HistoryOk(s.(state := state, burned := s.burned + [serial])) && serial !in s.burned
  {
    hide MoveOk;
    HistorySurvives(s, s.(state := state));
  }

  lemma CarriersOutlive(s: System, n: System, serial: nat)
    requires CarriersOk(s) && n.threads == s.threads && n.moves == s.moves && n.burned == s.burned + [serial]
    ensures CarriersOk(n)
  {
    hide Carries;
  }

  /** The thread that burned a permit is the only one to carry it. */
  lemma TakeUp(s: System, n: System, t: nat, serial: nat, record: Permit)
    requires CarriersOk(s) && HistoryOk(s) && At(s, t).Idle? && serial !in s.burned
    requires n.threads == s.threads && n.moves == s.moves && n.burned == s.burned + [serial]
    requires StateOk(n.state, n.handles) && ThreadsOk(n) && GatesOk(n) && HistoryOk(n)
    requires ThreadOk(n.state, n.handles, Carrying(serial, record, Fresh))
    ensures Invariant(With(n, t, Carrying(serial, record, Fresh)))
  {
    hide StateOk, GatesOk, HistoryOk, ThreadOk;
    var m := With(n, t, Carrying(serial, record, Fresh));
    SeatsStay(n, t, Carrying(serial, record, Fresh));
    HistoryStays(n, m);
    MovedWereBurned(s, serial);
    forall u, b | u in m.threads && Carries(m.threads[u], b)
      ensures (u == t && b == serial) || (u in s.threads && u != t && Carries(s.threads[u], b) && b != serial)
    {
    }
  }

  lemma MovedWereBurned(s: System, serial: nat)
    requires HistoryOk(s) && serial !in s.burned
    ensures forall i | 0 <= i < |s.moves| :: s.moves[i].serial != serial
  {
    hide MoveOk;
  }

  // ----- Every step, every run -----

  lemma WorkKeeps(s: System, t: nat, job: Job, r: Reading)
    requires Invariant(s) && At(s, t) == Inside(job)
    ensures Invariant(WorkStep(s, t, job, r))
  {
    hide Invariant, ControlStep, EnrolStep, PrepareStep, PublishStep;
    match job
    case Control(op) => ControlKeeps(s, t, op);
    case Enrol(h, seen) => EnrolKeeps(s, t, h, seen, r);
    case Prepare(authority, session, project, reg, sight) =>
      PrepareKeeps(s, t, authority, session, project, reg, sight, r);
    case Publish(serial, record, timed, validated) => PublishKeeps(s, t, serial, record, timed, validated, r);
    case Finished(_) =>
  }

  lemma AskKeeps(s: System, t: nat, job: Job)
    requires Invariant(s) && At(s, t).Idle? && Askable(s, job)
    ensures Invariant(TakeTicket(s, t, job))
  {
    hide Invariant;
    TakeTicketKeeps(s, t, job);
  }

  lemma CarryKeeps(s: System, t: nat, a: Action)
    requires Invariant(s) && At(s, t).Carrying?
    ensures Invariant(Step(s, t, a))
  {
    hide Invariant, TakeTicket, Live, InTime, Fenced;
    Parts(s, t);
    var Carrying(serial, record, stage) := At(s, t);
    GoIdle(s, t);
    if stage.Fresh? && a.CheckTime? && InTime(record, record.lastObserved, a.now) {
      LaterIsFenced(s.state, record, a.now);
      LocalStep(s, t, Carrying(serial, record.(lastObserved := a.now), Timed));
    } else if stage.Timed? && a.CheckLive? {
      LocalStep(s, t, Carrying(serial, record, Cleared));
    } else if a.Queue? {
      TakeTicketKeeps(s, t, Publish(serial, record, false, false));
    }
  }

  lemma LaterIsFenced(s: State, record: Permit, now: int)
    requires Fenced(s, record) && InTime(record, record.lastObserved, now)
    ensures Fenced(s, record.(lastObserved := now))
  {
  }

  lemma StepKeeps(s: System, t: nat, a: Action)
    requires Invariant(s)
    ensures Invariant(Step(s, t, a))
  {
    hide Invariant, TakeTicket, ConsumeStep, WorkStep, EnterStep, LeaveStep, Askable;
    match At(s, t)
    case Idle =>
      if a.Ask? && Askable(s, a.job) { AskKeeps(s, t, a.job); }
      if a.Consume? && a.login.Some? { ConsumeKeeps(s, t, a.authority, a.login.value, a.serial); }
    case Carrying(_, _, _) => CarryKeeps(s, t, a);
    case Waiting(job) => if a.Enter? { EnterKeeps(s, t, job); }
    case Inside(job) =>
      if a.Work? { WorkKeeps(s, t, job, a.reading); }
      if a.Leave? { LeaveKeeps(s, t, job); }
  }

  lemma {:induction false} RunKeeps(projects: set<string>, events: seq<Event>)
    ensures Invariant(Run(projects, events))
  {
    hide Invariant, Step;
    if events == [] {
      InvariantStarts(projects);
    } else {
      var last := events[|events| - 1];
      RunKeeps(projects, events[..|events| - 1]);
      StepKeeps(Run(projects, events[..|events| - 1]), last.thread, last.action);
    }
  }

  // ----- The theorems -----

  /**
   * Whatever the interleaving: when a Ref is moved under a permit, the project's security and the
   * profile are the very ones the permit was issued under. So the profile is not suspended, the
   * actor still has access, and the clock is before the permit's deadline and not before its issue.
   */
  lemma MovedOnlyUnderLiveAuthority(projects: set<string>, events: seq<Event>, m: Move)
    requires m in Run(projects, events).moves
    ensures var p := m.permit;
            && p.project in m.state.projects && m.state.projects[p.project] == p.issuedSecurity
            && p.profile in m.state.profiles && m.state.profiles[p.profile] == p.issuedProfile
            && !p.issuedProfile.suspended && p.issuedProfile.project == p.project
            && p.issuedProfile.actor == p.session.actor && p.session.actor in p.issuedSecurity.allowed
            && p.issuedAt <= p.lastObserved <= m.at < p.notAfter
  {
    hide Run;
    RunKeeps(projects, events);
    HistoryOf(Run(projects, events));
  }

  /** In every run, two threads working on one project are the same thread. */
  lemma OneAtATime(projects: set<string>, events: seq<Event>, t: nat, u: nat)
    requires var s := Run(projects, events);
             At(s, t).Inside? && At(s, u).Inside? && ProjectOf(At(s, t).job) == ProjectOf(At(s, u).job)
    ensures t == u
  {
    hide Run, GatesOk, StateOk, ThreadsOk, HistoryOk, CarriersOk;
    RunKeeps(projects, events);
    OneInside(Run(projects, events), t, u);
  }

  /** Each registration yields at most one permit, each permit is consumed at most once, and moves at most one Ref. */
  lemma EverythingIsOneShot(projects: set<string>, events: seq<Event>)
    ensures var s := Run(projects, events);
            && (forall i, j | 0 <= i < j < |s.issued| ::
                  s.issued[i].registration != s.issued[j].registration && s.issued[i].permit != s.issued[j].permit)
            && (forall i, j | 0 <= i < j < |s.burned| :: s.burned[i] != s.burned[j])
            && (forall i, j | 0 <= i < j < |s.moves| :: s.moves[i].serial != s.moves[j].serial)
            && (forall i | 0 <= i < |s.moves| :: s.moves[i].serial in s.burned)
  {
    hide Run, MoveOk;
    RunKeeps(projects, events);
    HistoryOf(Run(projects, events));
  }

  // ----- Counters -----

  /** Epochs, generations and serials never fall, no project or profile disappears, and no spent serial comes back. */
  predicate Grows(s: State, n: State) {
    && (forall q | q in s.projects :: q in n.projects && s.projects[q].epoch <= n.projects[q].epoch)
    && (forall k | k in s.profiles :: k in n.profiles && s.profiles[k].generation <= n.profiles[k].generation)
    && (forall k | k in n.profiles :: k in s.profiles || s.nextSerial <= k)
    && OnlyNew(s, n)
  }

  lemma AdvanceGrows(s: State, n: State, project: string)
    requires Advances(s, n, project) && OnlyNew(s, n)
             && forall k | k in n.profiles :: k in s.profiles || s.nextSerial <= k
    ensures Grows(s, n)
  {
    hide OnlyNew;
  }

  lemma OpGrows(s: State, handles: set<Handle>, op: ControlOp)
    requires StateOk(s, handles) && HandlesOf(op, handles) && ApplyOp(s, op).Some?
    ensures Grows(s, ApplyOp(s, op).value)
  {
    hide Advances, OnlyNew, StateOk;
    OpAdvances(s, handles, op);
    OpAddsNothing(s, handles, op);
    AdvanceGrows(s, ApplyOp(s, op).value, OpProject(op));
  }

  lemma RegisterGrows(s: State, h: Handle, generation: nat, head: string)
    requires Register(s, h, generation, head).Some?
    ensures Grows(s, Register(s, h, generation, head).value)
  {
  }

  lemma IssueGrows(s: State, authority: Authority, session: Session, project: string, reg: nat,
                   epoch: nat, seen: Registration, issuedAt: int, notAfter: int, grantExpires: int)
    requires Issue(s, authority, session, project, reg, epoch, seen, issuedAt, notAfter, grantExpires).Some?
    ensures Grows(s, Issue(s, authority, session, project, reg, epoch, seen, issuedAt, notAfter, grantExpires).value)
  {
  }

  lemma BurnGrows(s: State, authority: Authority, serial: nat)
    requires Burn(s, authority, serial).Some?
    ensures Grows(s, Burn(s, authority, serial).value.1)
  {
  }

  lemma PrepareGrows(s: System, t: nat, authority: Authority, session: Session, project: string, reg: nat,
                     sight: Option<Sight>, r: Reading)
    ensures Grows(s.state, PrepareStep(s, t, authority, session, project, reg, sight, r).state)
  {
    hide Issue, DeadlineOf, Preparable;
    if sight.Some? && DeadlineOf(authority, r.now, r.ttl, r.grantExpires).Some? {
      var d := DeadlineOf(authority, r.now, r.ttl, r.grantExpires).value;
      var seen := sight.value;
      if Issue(s.state, authority, session, project, reg, seen.epoch, seen.registration, r.now, d,
               r.grantExpires).Some? {
        IssueGrows(s.state, authority, session, project, reg, seen.epoch, seen.registration, r.now, d, r.grantExpires);
      }
    }
  }

  lemma WorkGrows(s: System, t: nat, job: Job, r: Reading)
    requires Invariant(s) && At(s, t) == Inside(job)
    ensures Grows(s.state, WorkStep(s, t, job, r).state)
  {
    hide Invariant, StateOk, ApplyOp, Register, PrepareStep, Live, CoreAllows, DeadlineReading, InTime, Usable, Grows;
    Parts(s, t);
    SameGrows(s.state);
    match job
    case Control(op) => if ApplyOp(s.state, op).Some? { OpGrows(s.state, s.handles, op); }
    case Enrol(h, seen) =>
      if seen.Some? && Register(s.state, h, seen.value, r.head).Some? { RegisterGrows(s.state, h, seen.value, r.head); }
    case Prepare(authority, session, project, reg, sight) =>
      PrepareGrows(s, t, authority, session, project, reg, sight, r);
    case _ =>
  }

  lemma SameGrows(s: State)
    ensures Grows(s, s)
  {
  }

  lemma StepGrows(s: System, t: nat, a: Action)
    requires Invariant(s)
    ensures Grows(s.state, Step(s, t, a).state)
  {
    hide Invariant, WorkStep, Askable, Live, InTime, FairGate.CanTake, FairGate.CanEnter, FairGate.CanLeave,
         FairGate.Take, FairGate.Enter, FairGate.Leave, Burn, Grows, ProjectOf;
    SameGrows(s.state);
    if At(s, t).Inside? && a.Work? { WorkGrows(s, t, At(s, t).job, a.reading); }
    if a.Consume? && Burn(s.state, a.authority, a.serial).Some? { BurnGrows(s.state, a.authority, a.serial); }
  }

  /** Over every run and every continuation of it, all counters only grow. */
  lemma {:induction false} CountersOnlyGrow(projects: set<string>, events: seq<Event>, more: seq<Event>)
    ensures Grows(Run(projects, events).state, Run(projects, events + more).state)
  {
    hide Invariant, Step;
    if more == [] {
      assert events + more == events;
    } else {
      var k := |more| - 1;
      var before := events + more[..k];
      assert (events + more)[..|events + more| - 1] == before && (events + more)[|events + more| - 1] == more[k];
      CountersOnlyGrow(projects, events, more[..k]);
      RunKeeps(projects, before);
      StepGrows(Run(projects, before), more[k].thread, more[k].action);
    }
  }
}
