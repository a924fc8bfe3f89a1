/** What the security operations keep: counters only grow, and a counter that has not moved pins what it counts. */
module FencingState {
  import opened Optional
  import opened Security
  import opened Fencing

  /** What a permit says about its own issue. */
  predicate WellIssued(p: Permit) {
    && p.issuedSecurity.epoch == p.epoch && p.session.actor in p.issuedSecurity.allowed
    && p.issuedProfile.generation == p.generation && p.issuedProfile.authority == p.authority
    && p.issuedProfile.project == p.project && p.issuedProfile.actor == p.session.actor && !p.issuedProfile.suspended
    && p.issuedAt <= p.lastObserved < p.notAfter
  }

  /** The project and the profile are still exactly those of the issue. */
  predicate Current(s: State, p: Permit) {
    && p.project in s.projects && s.projects[p.project] == p.issuedSecurity
    && p.profile in s.profiles && s.profiles[p.profile] == p.issuedProfile
  }

  /** An epoch or generation equal to the permit's can only mean that nothing has changed since. */
  predicate Fenced(s: State, p: Permit) {
    && WellIssued(p)
    && p.project in s.projects && p.epoch <= s.projects[p.project].epoch
    && (s.projects[p.project].epoch == p.epoch ==> s.projects[p.project] == p.issuedSecurity)
    && p.profile in s.profiles && p.generation <= s.profiles[p.profile].generation
    && s.profiles[p.profile].project == p.project
    && (s.profiles[p.profile].generation == p.generation ==> s.profiles[p.profile] == p.issuedProfile)
  }

  predicate HandleOk(s: State, h: Handle) {
    h.serial in s.profiles && s.profiles[h.serial].authority == h.authority && s.profiles[h.serial].project == h.project
  }

  predicate RegistrationOk(s: State, r: Registration) {
    r.profile in s.profiles && s.profiles[r.profile].authority == r.authority
    && s.profiles[r.profile].project == r.project
  }

  predicate StateOk(s: State, handles: set<Handle>) {
    && (forall h | h in handles :: HandleOk(s, h))
    && (forall k | k in s.profiles :: k < s.nextSerial && s.profiles[k].project in s.projects)
    && (forall k | k in s.registrations :: k < s.nextSerial && RegistrationOk(s, s.registrations[k]))
    && (forall k | k in s.permits :: k < s.nextSerial && Fenced(s, s.permits[k]))
  }

  /** One project's epoch, or the generations of its profiles, moved up; everything else stayed. */
  predicate Advances(s: State, n: State, project: string) {
    && (forall q | q in s.projects ::
          q in n.projects
          && (n.projects[q] == s.projects[q] || (q == project && s.projects[q].epoch < n.projects[q].epoch)))
    && (forall k | k in s.profiles ::
          && k in n.profiles && n.profiles[k].project == s.profiles[k].project
             && n.profiles[k].authority == s.profiles[k].authority
          && (n.profiles[k] == s.profiles[k]
              || (s.profiles[k].project == project && s.profiles[k].generation < n.profiles[k].generation)))
    && s.nextSerial <= n.nextSerial
  }

  lemma FenceHolds(s: State, n: State, project: string, p: Permit)
    requires Advances(s, n, project) && Fenced(s, p)
    ensures Fenced(n, p)
  {
  }

  lemma CurrentHolds(s: State, n: State, project: string, p: Permit)
    requires Advances(s, n, project) && Current(s, p) && p.project != project && p.issuedProfile.project == p.project
    ensures Current(n, p)
  {
  }

  /** The check before publication, which reads only counters and flags, pins the whole project and profile. */
  lemma LiveMeansCurrent(s: State, p: Permit, actor: string)
    requires Fenced(s, p) && Live(s, p, actor)
    ensures Current(s, p)
  {
  }

  // ----- The operations -----

  lemma GrantAdvances(s: State, project: string, actor: string)
    requires Grant(s, project, actor).Some?
    ensures Advances(s, Grant(s, project, actor).value, project)
  {
  }

  lemma RevokeAdvances(s: State, project: string, actor: string)
    requires Revoke(s, project, actor).Some?
    ensures Advances(s, Revoke(s, project, actor).value, project)
  {
  }

  lemma InstallAdvances(s: State, handles: set<Handle>, authority: Authority, c: Config)
    requires StateOk(s, handles) && Install(s, authority, c).Some?
    ensures Advances(s, Install(s, authority, c).value, c.project)
  {
    hide Fenced, RegistrationOk, HandleOk;
  }

  lemma ReplaceAdvances(s: State, handles: set<Handle>, h: Handle, c: Config)
    requires StateOk(s, handles) && h in handles && Replace(s, h, c).Some?
    ensures Advances(s, Replace(s, h, c).value, c.project)
  {
    hide Fenced, RegistrationOk;
  }

  lemma SuspendAdvances(s: State, handles: set<Handle>, h: Handle, suspended: bool)
    requires StateOk(s, handles) && h in handles && SetSuspended(s, h, suspended).Some?
    ensures Advances(s, SetSuspended(s, h, suspended).value, h.project)
  {
    hide Fenced, RegistrationOk;
  }

  predicate HandlesOf(op: ControlOp, handles: set<Handle>) {
    (op.ReplaceProfile? || op.SuspendProfile?) ==> op.handle in handles
  }

  lemma OpAdvances(s: State, handles: set<Handle>, op: ControlOp)
    requires StateOk(s, handles) && HandlesOf(op, handles) && ApplyOp(s, op).Some?
    ensures Advances(s, ApplyOp(s, op).value, OpProject(op))
  {
    hide StateOk, Advances, Grant, Revoke, Install, Replace, SetSuspended;
    match op
    case GrantAccess(project, actor) => GrantAdvances(s, project, actor);
    case RevokeAccess(project, actor) => RevokeAdvances(s, project, actor);
    case InstallProfile(authority, config) => InstallAdvances(s, handles, authority, config);
    case ReplaceProfile(handle, config) => ReplaceAdvances(s, handles, handle, config);
    case SuspendProfile(handle, suspended) => SuspendAdvances(s, handles, handle, suspended);
  }

  /** Control operations touch neither registrations nor permits, and every profile keeps a known project. */
  lemma OpKeepsRest(s: State, op: ControlOp)
    requires ApplyOp(s, op).Some?
             && forall k | k in s.profiles :: k < s.nextSerial && s.profiles[k].project in s.projects
    ensures var n := ApplyOp(s, op).value;
            && n.registrations == s.registrations && n.permits == s.permits
            && (forall k | k in n.profiles :: k < n.nextSerial && n.profiles[k].project in n.projects)
            && (op.InstallProfile? ==> HandleOk(n, Handle(op.authority, op.config.project, s.nextSerial)))
  {
  }

  lemma OpKeepsState(s: State, handles: set<Handle>, op: ControlOp)
    requires StateOk(s, handles) && HandlesOf(op, handles) && ApplyOp(s, op).Some?
    ensures var more := if op.InstallProfile?
                        then handles + {Handle(op.authority, op.config.project, s.nextSerial)} else handles;
            StateOk(ApplyOp(s, op).value, more)
  {
    hide ApplyOp, Fenced;
    OpAdvances(s, handles, op);
    OpKeepsRest(s, op);
    var n := ApplyOp(s, op).value;
    forall k | k in n.permits ensures Fenced(n, n.permits[k]) {
      FenceHolds(s, n, OpProject(op), s.permits[k]);
    }
  }

  lemma RegisterKeepsState(s: State, handles: set<Handle>, h: Handle, generation: nat, head: string)
    requires StateOk(s, handles) && Register(s, h, generation, head).Some?
    ensures StateOk(Register(s, h, generation, head).value, handles)
    ensures Advances(s, Register(s, h, generation, head).value, h.project)
  {
    hide WellIssued;
  }

  lemma BurnKeepsState(s: State, handles: set<Handle>, authority: Authority, serial: nat)
    requires StateOk(s, handles) && Burn(s, authority, serial).Some?
    ensures var (p, n) := Burn(s, authority, serial).value;
            && StateOk(n, handles) && Advances(s, n, "") && Fenced(n, p)
            && serial < s.nextSerial && serial !in n.permits && n.nextSerial == s.nextSerial
  {
    hide WellIssued;
  }

  /** A new permit is well issued and fenced from the start, and its registration is gone. */
  lemma IssueKeepsState(s: State, handles: set<Handle>, authority: Authority, session: Session, project: string,
                        reg: nat, epoch: nat, seen: Registration, issuedAt: int, notAfter: int, grantExpires: int)
    requires StateOk(s, handles) && seen.project == project && issuedAt < notAfter
    requires Issue(s, authority, session, project, reg, epoch, seen, issuedAt, notAfter, grantExpires).Some?
    ensures var n := Issue(s, authority, session, project, reg, epoch, seen, issuedAt, notAfter, grantExpires).value;
            && StateOk(n, handles) && Advances(s, n, project)
            && reg < s.nextSerial && reg !in n.registrations && n.nextSerial == s.nextSerial + 1
  {
    var n := Issue(s, authority, session, project, reg, epoch, seen, issuedAt, notAfter, grantExpires).value;
    assert RegistrationOk(s, s.registrations[reg]);
    assert Fenced(n, n.permits[s.nextSerial]);
    forall k | k in n.permits && k != s.nextSerial ensures Fenced(n, n.permits[k]) {
      FenceHolds(s, n, project, s.permits[k]);
    }
  }
}
