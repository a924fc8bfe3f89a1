/** The application's security state: project access lists, authority profiles, one-shot registrations and permits. */
module Security {
  import opened Optional
  import opened Words

  datatype ProjectSecurity = ProjectSecurity(epoch: nat, allowed: set<string>)

  datatype Authority = Ai | Human

  datatype Profile = Profile(authority: Authority, generation: nat, suspended: bool, project: string, actor: string,
                             config: string)

  /** What registering a profile hands out; handles cannot be made any other way. */
  datatype Handle = Handle(authority: Authority, project: string, serial: nat)

  datatype Registration = Registration(authority: Authority, project: string, profile: nat, generation: nat,
                                       sealedHead: string)

  datatype Session = Session(actor: string, id: string)

  /**
   * A permit. The last two fields remember the project security and the profile it was issued
   * under; no check reads them.
   */
  datatype Permit = Permit(
    authority: Authority, session: Session, project: string, epoch: nat, profile: nat, generation: nat,
    registration: nat,
    issuedAt: int, notAfter: int, lastObserved: int, grantExpires: int,
    issuedSecurity: ProjectSecurity, issuedProfile: Profile)

  datatype State = State(
    nextSerial: nat,
    projects: map<string, ProjectSecurity>,
    profiles: map<nat, Profile>,
    registrations: map<nat, Registration>,
    permits: map<nat, Permit>)

  // ----- Control operations; a refused one leaves no new state -----

  function NextEpoch(e: nat): Option<nat> { if e >= U64_MAX then None else Some(e + 1) }

  function Grant(s: State, project: string, actor: string): Option<State> {
    if project !in s.projects then None
    else if actor in s.projects[project].allowed then Some(s)
    else
      match NextEpoch(s.projects[project].epoch)
      case None => None
      case Some(e) =>
        Some(s.(projects := s.projects[project := ProjectSecurity(e, s.projects[project].allowed + {actor})]))
  }

  function Revoke(s: State, project: string, actor: string): Option<State> {
    if project !in s.projects then None
    else if actor !in s.projects[project].allowed then Some(s)
    else
      match NextEpoch(s.projects[project].epoch)
      case None => None
      case Some(e) =>
        Some(s.(projects := s.projects[project := ProjectSecurity(e, s.projects[project].allowed - {actor})]))
  }

  datatype Config = Config(project: string, actor: string, detail: string)

  function Install(s: State, authority: Authority, c: Config): Option<State> {
    if c.project !in s.projects || s.nextSerial >= U64_MAX then None
    else
      Some(s.(nextSerial := s.nextSerial + 1,
              profiles := s.profiles[s.nextSerial := Profile(authority, 1, false, c.project, c.actor, c.detail)]))
  }

  /** The profile a handle names. The human operations also compare its project. */
  predicate Names(s: State, h: Handle) {
    && h.serial in s.profiles && s.profiles[h.serial].authority == h.authority
    && (h.authority.Human? ==> s.profiles[h.serial].project == h.project)
  }

  function Replace(s: State, h: Handle, c: Config): Option<State> {
    if h.project != c.project || !Names(s, h) || c.project !in s.projects then None
    else
      match (NextEpoch(s.profiles[h.serial].generation), NextEpoch(s.projects[c.project].epoch))
      case (Some(g), Some(e)) =>
        Some(s.(profiles := s.profiles[h.serial := Profile(h.authority, g, false, c.project, c.actor, c.detail)],
                projects := s.projects[c.project := s.projects[c.project].(epoch := e)]))
      case _ => None
  }

  function SetSuspended(s: State, h: Handle, suspended: bool): Option<State> {
    if !Names(s, h) then None
    else if s.profiles[h.serial].suspended == suspended then Some(s)
    else if h.project !in s.projects then None
    else
      match (NextEpoch(s.profiles[h.serial].generation), NextEpoch(s.projects[h.project].epoch))
      case (Some(g), Some(e)) =>
        Some(s.(profiles := s.profiles[h.serial := s.profiles[h.serial].(suspended := suspended, generation := g)],
                projects := s.projects[h.project := s.projects[h.project].(epoch := e)]))
      case _ => None
  }

  // ----- Registrations and permits -----

  /** A profile that can still be used as it was when it was looked at. */
  predicate Usable(s: State, h: Handle) {
    && h.serial in s.profiles && s.profiles[h.serial].authority == h.authority
    && !s.profiles[h.serial].suspended && s.profiles[h.serial].project == h.project
  }

  /** The second half of registering: the profile must not have changed while the head was read. */
  function Register(s: State, h: Handle, generation: nat, sealedHead: string): Option<State> {
    if !Usable(s, h) || s.profiles[h.serial].generation != generation || s.nextSerial >= U64_MAX then None
    else
      Some(s.(nextSerial := s.nextSerial + 1,
              registrations := s.registrations[s.nextSerial := Registration(h.authority, h.project, h.serial,
                                                                            generation, sealedHead)]))
  }

  predicate Allowed(s: State, project: string, actor: string) {
    project in s.projects && actor in s.projects[project].allowed
  }

  predicate ProfileServes(s: State, serial: nat, authority: Authority, generation: nat, project: string,
                          actor: string) {
    && serial in s.profiles && s.profiles[serial].authority == authority && !s.profiles[serial].suspended
    && s.profiles[serial].generation == generation
    && s.profiles[serial].project == project && s.profiles[serial].actor == actor
  }

  /** The same check made again; for AI the project, which a profile never changes, is not compared a second time. */
  predicate ProfileStillServes(s: State, serial: nat, authority: Authority, generation: nat, project: string,
                               actor: string) {
    && serial in s.profiles && s.profiles[serial].authority == authority && !s.profiles[serial].suspended
    && s.profiles[serial].generation == generation && s.profiles[serial].actor == actor
    && (authority.Human? ==> s.profiles[serial].project == project)
  }

  /** What a preparing request sees before any time passes. */
  predicate Preparable(s: State, authority: Authority, session: Session, project: string, reg: nat) {
    && Allowed(s, project, session.actor)
    && reg in s.registrations && s.registrations[reg].authority == authority && s.registrations[reg].project == project
    && ProfileServes(s, s.registrations[reg].profile, authority, s.registrations[reg].generation, project,
                     session.actor)
  }

  /** The second half of preparing: everything seen must still hold, and the registration is spent. */
  function Issue(s: State, authority: Authority, session: Session, project: string, reg: nat,
                 seenEpoch: nat, seen: Registration, issuedAt: int, notAfter: int, grantExpires: int): Option<State>
  {
    if !Allowed(s, project, session.actor) || s.projects[project].epoch != seenEpoch
       || reg !in s.registrations || s.registrations[reg] != seen
       || !ProfileStillServes(s, seen.profile, authority, seen.generation, project, session.actor)
       || s.nextSerial >= U64_MAX
    then None
    else
      Some(s.(nextSerial := s.nextSerial + 1,
              registrations := s.registrations - {reg},
              permits := s.permits[s.nextSerial :=
                Permit(authority, session, project, seenEpoch, seen.profile, seen.generation, reg,
                       issuedAt, notAfter, issuedAt, grantExpires, s.projects[project], s.profiles[seen.profile])]))
  }

  /** Consuming a permit takes it out of the state before anything about it is checked. */
  function Burn(s: State, authority: Authority, serial: nat): Option<(Permit, State)> {
    if serial !in s.permits || s.permits[serial].authority != authority then None
    else Some((s.permits[serial], s.(permits := s.permits - {serial})))
  }

  /** The check made before the Ref is moved: epochs and flags only, never the remembered snapshots. */
  predicate Live(s: State, p: Permit, actor: string) {
    && Allowed(s, p.project, actor) && s.projects[p.project].epoch == p.epoch
    && ProfileServes(s, p.profile, p.authority, p.generation, p.project, actor)
  }

  // ----- Deadlines -----

  /** A permit-time check: not before the floor, and before the deadline. */
  predicate InTime(p: Permit, floor: int, now: int) { floor <= now < p.notAfter }

  /** What the deadline clock tells Core when the real clock reads `now`. An absent result is a clock error. */
  function DeadlineReading(p: Permit, floor: int, now: int): Option<int> {
    if now < floor then None
    else if now >= p.notAfter then
      if p.authority.Human? then None else Some(if now < p.grantExpires then p.grantExpires else now)
    else Some(now)
  }

  /** Core's guard inside the Ref transaction: for AI, the grant must not have expired at the clock's reading. */
  predicate CoreAllows(p: Permit, reading: Option<int>) {
    reading.Some? && (p.authority.Ai? ==> reading.value < p.grantExpires)
  }

  /**
   * The transaction guard lets through exactly what is in time and, for AI, before the grant expires,
   * whichever clock is wrapped.
   */
  lemma GuardKeepsTheDeadline(p: Permit, floor: int, now: int)
    ensures CoreAllows(p, DeadlineReading(p, floor, now))
            <==> InTime(p, floor, now) && (p.authority.Ai? ==> now < p.grantExpires)
  {
  }

  /** The deadline of a new permit. */
  function DeadlineOf(authority: Authority, issuedAt: int, ttl: int, grantExpires: int): Option<int> {
    if issuedAt + ttl > I128_MAX then None
    else
      var deadline := if authority.Ai? && grantExpires < issuedAt + ttl then grantExpires else issuedAt + ttl;
      if issuedAt >= deadline then None else Some(deadline)
  }

  /** It is the earliest of its bounds and after the issue; without such a time no permit is issued. */
  lemma DeadlineIsTheEarliest(authority: Authority, issuedAt: int, ttl: int, grantExpires: int, d: int)
    ensures DeadlineOf(authority, issuedAt, ttl, grantExpires) == Some(d)
            <==> && issuedAt + ttl <= I128_MAX && issuedAt < d
                 && d <= issuedAt + ttl && (authority.Ai? ==> d <= grantExpires)
                 && (d == issuedAt + ttl || (authority.Ai? && d == grantExpires))
  {
  }
}
