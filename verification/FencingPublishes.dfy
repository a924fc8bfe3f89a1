/** What the fences let through: a request that nobody disturbs registers, prepares and publishes. */
module FencingPublishes {
  import opened Optional
  import opened Words
  import opened Security
  import opened Fencing
  import FairGate

  // ----- Steps of one thread in a row -----

  function Acts(s: System, t: nat, actions: seq<Action>): System
    decreases |actions|
  {
    if actions == [] then s else Acts(Step(s, t, actions[0]), t, actions[1..])
  }

  function By(t: nat, actions: seq<Action>): seq<Event> {
    seq(|actions|, i requires 0 <= i < |actions| => Event(t, actions[i]))
  }

  lemma {:induction false} RunActs(projects: set<string>, events: seq<Event>, t: nat, actions: seq<Action>)
    ensures Run(projects, events + By(t, actions)) == Acts(Run(projects, events), t, actions)
    decreases |actions|
  {
    hide Step;
    if actions == [] {
      assert events + By(t, actions) == events;
    } else {
      var next := events + [Event(t, actions[0])];
      assert next[..|next| - 1] == events;
      RunActs(projects, next, t, actions[1..]);
      assert events + By(t, actions) == next + By(t, actions[1..]);
    }
  }

  lemma {:induction false} ActsConcat(s: System, t: nat, a: seq<Action>, b: seq<Action>)
    ensures Acts(s, t, a + b) == Acts(Acts(s, t, a), t, b)
    decreases |a|
  {
    hide Step;
    if a == [] {
      assert a + b == b;
    } else {
      assert (a + b)[1..] == a[1..] + b;
      ActsConcat(Step(s, t, a[0]), t, a[1..], b);
    }
  }

  lemma TwoActs(s: System, t: nat, a: Action, b: Action)
    ensures Acts(s, t, [a]) == Step(s, t, a)
    ensures Acts(s, t, [a, b]) == Step(Step(s, t, a), t, b)
  {
    hide Step;
    assert [a, b][1..] == [b] && [b][1..] == [] && [a][1..] == [];
    assert Acts(Step(s, t, a), t, [b]) == Step(Step(s, t, a), t, b);
  }

  // ----- At the gate -----

  /** The thread is idle, and the gate is free with tickets left. */
  predicate Free(s: System, t: nat, project: string, tickets: nat) {
    && At(s, t).Idle? && project in s.gates
    && s.gates[project].serving == s.gates[project].next && !s.gates[project].occupied && t !in s.gates[project].seats
    && s.gates[project].next + tickets <= U64_MAX
  }

  /** The thread is through the gate, and nothing but its seat has changed. */
  predicate Entered(s: System, n: System, t: nat, job: Job) {
    && At(n, t) == Inside(job) && n == s.(threads := n.threads, gates := n.gates)
    && var p := ProjectOf(job);
       && p in s.gates && p in n.gates && n.gates[p].next == s.gates[p].next + 1
       && n.gates[p].serving == s.gates[p].serving && FairGate.CanLeave(n.gates[p], t)
  }

  lemma Enters(s: System, t: nat, job: Job)
    requires ProjectOf(job) in s.gates && t !in s.gates[ProjectOf(job)].seats
    requires var g := s.gates[ProjectOf(job)]; g.serving == g.next && !g.occupied && g.next < U64_MAX
    ensures At(TakeTicket(s, t, job), t) == Waiting(job)
    ensures Entered(s, Step(TakeTicket(s, t, job), t, Enter), t, job)
  {
  }

  lemma AsksAndEnters(s: System, t: nat, job: Job)
    requires Free(s, t, ProjectOf(job), 1) && Askable(s, job)
    ensures Entered(s, Acts(s, t, [Ask(job), Enter]), t, job)
  {
    hide Acts, Entered, ProjectOf, Askable;
    TwoActs(s, t, Ask(job), Enter);
    Enters(s, t, job);
  }

  lemma Leaves(s: System, t: nat, job: Job, tickets: nat)
    requires At(s, t) == Inside(job) && ProjectOf(job) in s.gates && FairGate.CanLeave(s.gates[ProjectOf(job)], t)
    requires var g := s.gates[ProjectOf(job)]; g.next == g.serving + 1 && g.next + tickets <= U64_MAX
    ensures var n := Step(s, t, Leave);
            Free(n, t, ProjectOf(job), tickets) && n == s.(threads := n.threads, gates := n.gates)
  {
  }

  // ----- Registering -----

  function Enrolled(s: State, h: Handle, head: string): State
    requires h.serial in s.profiles
  {
    s.(nextSerial := s.nextSerial + 1,
       registrations := s.registrations[s.nextSerial :=
         Registration(h.authority, h.project, h.serial, s.profiles[h.serial].generation, head)])
  }

  lemma EnrolWorks(s: System, t: nat, h: Handle, r: Reading)
    requires At(s, t) == Inside(Enrol(h, None)) && Usable(s.state, h) && s.state.nextSerial < U64_MAX
    ensures var n := Acts(s, t, [Work(r), Work(r)]);
            && At(n, t) == Inside(Finished(h.project))
            && n == s.(threads := n.threads, state := Enrolled(s.state, h, r.head))
  {
    hide Acts;
    TwoActs(s, t, Work(r), Work(r));
  }

  /** A handle whose profile can be used registers an execution with the head that was read. */
  lemma Enrols(s: System, t: nat, h: Handle, r: Reading, tickets: nat)
    requires Free(s, t, h.project, tickets + 1) && h in s.handles && Usable(s.state, h) && s.state.nextSerial < U64_MAX
    ensures var n := Acts(s, t, [Ask(Enrol(h, None)), Enter] + ([Work(r), Work(r)] + [Leave]));
            && Free(n, t, h.project, tickets)
            && n == s.(threads := n.threads, gates := n.gates, state := Enrolled(s.state, h, r.head))
  {
    hide Acts, Step;
    var job := Enrol(h, None);
    var a := Acts(s, t, [Ask(job), Enter]);
    AsksAndEnters(s, t, job);
    var b := Acts(a, t, [Work(r), Work(r)]);
    EnrolWorks(a, t, h, r);
    ActsConcat(s, t, [Ask(job), Enter], [Work(r), Work(r)] + [Leave]);
    ActsConcat(a, t, [Work(r), Work(r)], [Leave]);
    TwoActs(b, t, Leave, Leave);
    Leaves(b, t, Finished(h.project), tickets);
  }

  // ----- Preparing -----

  /** The permit that a preparation at this reading is owed. */
  function Owed(s: State, session: Session, project: string, reg: nat, issuedAt: int, notAfter: int,
                expires: int): Permit
    requires project in s.projects && reg in s.registrations && s.registrations[reg].profile in s.profiles
  {
    var seen := s.registrations[reg];
    Permit(seen.authority, session, project, s.projects[project].epoch, seen.profile, seen.generation, reg,
           issuedAt, notAfter, issuedAt, expires, s.projects[project], s.profiles[seen.profile])
  }

  function Prepared(s: State, reg: nat, p: Permit): State {
    s.(nextSerial := s.nextSerial + 1, registrations := s.registrations - {reg},
       permits := s.permits[s.nextSerial := p])
  }

  lemma PrepareWorks(s: System, t: nat, authority: Authority, session: Session, project: string, reg: nat, r: Reading,
                     deadline: int)
    requires At(s, t) == Inside(Prepare(authority, session, project, reg, None))
    requires Preparable(s.state, authority, session, project, reg) && s.state.nextSerial < U64_MAX
    requires DeadlineOf(authority, r.now, r.ttl, r.grantExpires) == Some(deadline)
    ensures var n := Acts(s, t, [Work(r), Work(r)]);
            var p := Owed(s.state, session, project, reg, r.now, deadline, r.grantExpires);
            && At(n, t) == Inside(Finished(project))
            && n == s.(threads := n.threads, state := Prepared(s.state, reg, p),
                       issued := s.issued + [Issued(reg, s.state.nextSerial)])
  {
    hide Acts, DeadlineOf;
    TwoActs(s, t, Work(r), Work(r));
  }

  /** Whoever has access and names a fresh registration of a profile that serves them is issued a permit. */
  lemma Prepares(s: System, t: nat, authority: Authority, session: Session, project: string, reg: nat, r: Reading,
                 deadline: int, tickets: nat)
    requires Free(s, t, project, tickets + 1)
    requires Preparable(s.state, authority, session, project, reg) && s.state.nextSerial < U64_MAX
    requires DeadlineOf(authority, r.now, r.ttl, r.grantExpires) == Some(deadline)
    ensures var job := Prepare(authority, session, project, reg, None);
            var n := Acts(s, t, [Ask(job), Enter] + ([Work(r), Work(r)] + [Leave]));
            var p := Owed(s.state, session, project, reg, r.now, deadline, r.grantExpires);
            && Free(n, t, project, tickets)
            && n == s.(threads := n.threads, gates := n.gates, state := Prepared(s.state, reg, p),
                       issued := s.issued + [Issued(reg, s.state.nextSerial)])
  {
    hide Acts, Step, DeadlineOf;
    var job := Prepare(authority, session, project, reg, None);
    var a := Acts(s, t, [Ask(job), Enter]);
    AsksAndEnters(s, t, job);
    var b := Acts(a, t, [Work(r), Work(r)]);
    PrepareWorks(a, t, authority, session, project, reg, r, deadline);
    ActsConcat(s, t, [Ask(job), Enter], [Work(r), Work(r)] + [Leave]);
    ActsConcat(a, t, [Work(r), Work(r)], [Leave]);
    TwoActs(b, t, Leave, Leave);
    Leaves(b, t, Finished(project), tickets);
  }

  // ----- Publishing -----

  /** Steps from consuming a permit to the gate; only an AI execution is checked once more on the way. */
  function ToTheGate(authority: Authority, session: Session, serial: nat, now: int): seq<Action> {
    [Consume(authority, Some(session), serial), CheckTime(now)]
    + (if authority.Ai? then [CheckLive, Queue] else [Queue])
  }

  function Consumed(s: System, serial: nat): System {
    s.(state := s.state.(permits := s.state.permits - {serial}), burned := s.burned + [serial])
  }

  lemma TakenToTheGate(s: System, t: nat, serial: nat, now: int) returns (c: System)
    requires serial in s.state.permits && At(s, t).Idle?
    requires var p := s.state.permits[serial];
             InTime(p, p.lastObserved, now) && (p.authority.Ai? ==> Live(s.state, p, p.session.actor))
    ensures var p := s.state.permits[serial];
            var n := Acts(s, t, ToTheGate(p.authority, p.session, serial, now));
            && c == Consumed(s, serial).(threads := c.threads)
            && n == TakeTicket(c, t, Publish(serial, p.(lastObserved := now), false, false))
  {
    hide Acts, TakeTicket;
    var p := s.state.permits[serial];
    var consume := Consume(p.authority, Some(p.session), serial);
    TwoActs(s, t, consume, CheckTime(now));
    c := Acts(s, t, [consume, CheckTime(now)]);
    assert At(c, t) == Carrying(serial, p.(lastObserved := now), Timed);
    if p.authority.Ai? {
      ActsConcat(s, t, [consume, CheckTime(now)], [CheckLive, Queue]);
      TwoActs(c, t, CheckLive, Queue);
      c := Step(c, t, CheckLive);
    } else {
      ActsConcat(s, t, [consume, CheckTime(now)], [Queue]);
      TwoActs(c, t, Queue, Queue);
    }
  }

  lemma PublishWorks(s: System, t: nat, serial: nat, p: Permit, second: Reading, third: Reading)
    requires At(s, t) == Inside(Publish(serial, p, false, false)) && Live(s.state, p, p.session.actor)
    requires p.lastObserved <= second.now <= third.now < p.notAfter && third.coreAgrees
    requires p.authority.Ai? ==> third.now < p.grantExpires
    ensures var n := Acts(s, t, [Work(second), Work(second)] + [Work(third)]);
            && At(n, t) == Inside(Finished(p.project))
            && n == s.(threads := n.threads,
                       moves := s.moves + [Move(serial, p.(lastObserved := second.now), s.state, third.now)])
  {
    hide Acts;
    ActsConcat(s, t, [Work(second), Work(second)], [Work(third)]);
    TwoActs(s, t, Work(second), Work(second));
    TwoActs(Acts(s, t, [Work(second), Work(second)]), t, Work(third), Work(third));
  }

  function PublishActs(p: Permit, serial: nat, now: int, second: Reading, third: Reading): seq<Action> {
    ToTheGate(p.authority, p.session, serial, now)
    + ([Enter] + (([Work(second), Work(second)] + [Work(third)]) + [Leave]))
  }

  /**
   * An undisturbed holder of a permit moves the Ref: the permit is live, the clock stays before its
   * deadline, and the transaction agrees. The permit is spent and exactly one move is made.
   */
  lemma Publishes(s: System, t: nat, serial: nat, now: int, second: Reading, third: Reading)
    requires serial in s.state.permits
    requires var p := s.state.permits[serial];
             && Free(s, t, p.project, 1) && Live(s.state, p, p.session.actor)
             && p.lastObserved <= now <= second.now <= third.now < p.notAfter && third.coreAgrees
             && (p.authority.Ai? ==> third.now < p.grantExpires)
    ensures var p := s.state.permits[serial];
            var n := Acts(s, t, PublishActs(p, serial, now, second, third));
            && n.state == Consumed(s, serial).state && n.burned == s.burned + [serial]
            && n.moves == s.moves + [Move(serial, p.(lastObserved := second.now), n.state, third.now)]
            && At(n, t).Idle?
  {
    hide Acts, Step, ToTheGate, TakeTicket, Live;
    var p := s.state.permits[serial];
    var q := p.(lastObserved := now);
    var first := ToTheGate(p.authority, p.session, serial, now);
    var works := [Work(second), Work(second)] + [Work(third)];
    var c := TakenToTheGate(s, t, serial, now);
    var a := Acts(s, t, first);
    Enters(c, t, Publish(serial, q, false, false));
    var b := Step(a, t, Enter);
    LiveAlike(s.state, b.state, p, now);
    PublishWorks(b, t, serial, q, second, third);
    var d := Acts(b, t, works);
    Leaves(d, t, Finished(p.project), 0);
    ActsConcat(s, t, first, [Enter] + (works + [Leave]));
    ActsConcat(a, t, [Enter], works + [Leave]);
    TwoActs(a, t, Enter, Enter);
    ActsConcat(b, t, works, [Leave]);
    TwoActs(d, t, Leave, Leave);
  }

  lemma LiveAlike(s: State, n: State, p: Permit, now: int)
    requires Live(s, p, p.session.actor) && n.projects == s.projects && n.profiles == s.profiles
    ensures Live(n, p.(lastObserved := now), p.session.actor)
  {
  }

  // ----- A whole request -----

  /** Everything a request needs when it starts, nobody else being about. */
  predicate Ready(s: System, t: nat, h: Handle, session: Session) {
    && Free(s, t, h.project, 3) && h in s.handles && Usable(s.state, h)
    && Allowed(s.state, h.project, session.actor) && s.state.profiles[h.serial].actor == session.actor
    && s.state.nextSerial + 2 <= U64_MAX
  }

  /** The permit it will be issued. */
  function Due(s: State, h: Handle, session: Session, head: string, issuing: Reading, deadline: int): Permit
    requires h.serial in s.profiles && h.project in s.projects
  {
    Owed(Enrolled(s, h, head), session, h.project, s.nextSerial, issuing.now, deadline, issuing.grantExpires)
  }

  function RequestActs(s: State, h: Handle, session: Session, enrolling: Reading, issuing: Reading, now: int,
                       second: Reading, third: Reading, p: Permit): seq<Action> {
    ([Ask(Enrol(h, None)), Enter] + ([Work(enrolling), Work(enrolling)] + [Leave]))
    + (([Ask(Prepare(h.authority, session, h.project, s.nextSerial, None)), Enter]
        + ([Work(issuing), Work(issuing)] + [Leave]))
       + PublishActs(p, s.nextSerial + 1, now, second, third))
  }

  /**
   * In every run, a request that is not disturbed goes through from registering to publishing: with
   * access, a usable profile for the actor, a clock before the deadline and a transaction that
   * agrees, it ends with exactly one more move, made in its session, under the permit it was issued.
   */
  lemma UndisturbedRequestMovesTheRef(projects: set<string>, events: seq<Event>, t: nat, h: Handle, session: Session,
                                      enrolling: Reading, issuing: Reading, now: int, second: Reading, third: Reading,
                                      deadline: int)
    requires var s := Run(projects, events);
             && Ready(s, t, h, session)
             && DeadlineOf(h.authority, issuing.now, issuing.ttl, issuing.grantExpires) == Some(deadline)
             && issuing.now <= now <= second.now <= third.now < deadline && third.coreAgrees
    ensures var s := Run(projects, events);
            var p := Due(s.state, h, session, enrolling.head, issuing, deadline);
            var actions := RequestActs(s.state, h, session, enrolling, issuing, now, second, third, p);
            var n := Run(projects, events + By(t, actions));
            n.moves == s.moves + [Move(s.state.nextSerial + 1, p.(lastObserved := second.now), n.state, third.now)]
  {
    hide Run, Acts, Step, By, PublishActs, DeadlineOf, Free;
    var s := Run(projects, events);
    var p := Due(s.state, h, session, enrolling.head, issuing, deadline);
    RunActs(projects, events, t, RequestActs(s.state, h, session, enrolling, issuing, now, second, third, p));
    var enrol := [Ask(Enrol(h, None)), Enter] + ([Work(enrolling), Work(enrolling)] + [Leave]);
    var prepare := [Ask(Prepare(h.authority, session, h.project, s.state.nextSerial, None)), Enter]
                   + ([Work(issuing), Work(issuing)] + [Leave]);
    var publish := PublishActs(p, s.state.nextSerial + 1, now, second, third);
    var a := Acts(s, t, enrol);
    Enrols(s, t, h, enrolling, 2);
    var b := Acts(a, t, prepare);
    Prepares(a, t, h.authority, session, h.project, s.state.nextSerial, issuing, deadline, 1);
    DeadlineIsTheEarliest(h.authority, issuing.now, issuing.ttl, issuing.grantExpires, deadline);
    Publishes(b, t, s.state.nextSerial + 1, now, second, third);
    ActsConcat(s, t, enrol, prepare + publish);
    ActsConcat(a, t, prepare, publish);
  }
}
