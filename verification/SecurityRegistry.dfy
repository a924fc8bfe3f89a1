/** The security state as it is updated in place, under its lock. */
module SecurityRegistry {
  import opened Optional
  import opened Words
  import opened Security

  class SecurityState {
    var nextSerial: nat
    var projects: map<string, ProjectSecurity>
    var profiles: map<nat, Profile>
    var registrations: map<nat, Registration>
    var permits: map<nat, Permit>

    constructor (names: set<string>)
      ensures View() == State(1, map p | p in names :: ProjectSecurity(0, {}), map[], map[], map[])
    {
      nextSerial := 1;
      projects := map p | p in names :: ProjectSecurity(0, {});
      profiles, registrations, permits := map[], map[], map[];
    }

    function View(): State
      reads this
    {
      State(nextSerial, projects, profiles, registrations, permits)
    }

    /** The state an operation leaves: its new state, or the old one when it was refused. */
    ghost predicate Leaves(before: State, after: Option<State>, ok: bool)
      reads this
    {
      ok == after.Some? && View() == (if ok then after.value else before)
    }

    method AllocateSerial() returns (serial: Option<nat>)
      modifies this`nextSerial
      ensures serial == if old(nextSerial) >= U64_MAX then None else Some(old(nextSerial))
      ensures nextSerial == old(nextSerial) + if serial.Some? then 1 else 0
    {
      if nextSerial >= U64_MAX {
        return None;
      }
      serial := Some(nextSerial);
      nextSerial := nextSerial + 1;
    }

    method GrantProjectAccess(project: string, actor: string) returns (ok: bool)
      modifies this
      ensures Leaves(old(View()), Grant(old(View()), project, actor), ok)
    {
      if project !in projects {
        return false;
      }
      var security := projects[project];
      if actor !in security.allowed {
        var epoch := NextEpoch(security.epoch);
        if epoch.None? {
          return false;
        }
        projects := projects[project := ProjectSecurity(epoch.value, security.allowed + {actor})];
      }
      return true;
    }

    method RevokeProjectAccess(project: string, actor: string) returns (ok: bool)
      modifies this
      ensures Leaves(old(View()), Revoke(old(View()), project, actor), ok)
    {
      if project !in projects {
        return false;
      }
      var security := projects[project];
      if actor in security.allowed {
        var epoch := NextEpoch(security.epoch);
        if epoch.None? {
          return false;
        }
        projects := projects[project := ProjectSecurity(epoch.value, security.allowed - {actor})];
      }
      return true;
    }

    method RegisterProfile(authority: Authority, c: Config) returns (h: Option<Handle>)
      modifies this
      ensures Leaves(old(View()), Install(old(View()), authority, c), h.Some?)
      ensures h.Some? ==> h.value == Handle(authority, c.project, old(nextSerial))
    {
      if c.project !in projects {
        return None;
      }
      var serial := AllocateSerial();
      if serial.None? {
        return None;
      }
      profiles := profiles[serial.value := Profile(authority, 1, false, c.project, c.actor, c.detail)];
      return Some(Handle(authority, c.project, serial.value));
    }

    /** Both counters are advanced before either map changes, so a refusal changes nothing. */
    method ReplaceProfile(h: Handle, c: Config) returns (ok: bool)
      modifies this
      ensures Leaves(old(View()), Replace(old(View()), h, c), ok)
    {
      if h.project != c.project {
        return false;
      }
      if !Names(View(), h) {
        return false;
      }
      var generation := NextEpoch(profiles[h.serial].generation);
      if generation.None? || c.project !in projects {
        return false;
      }
      var epoch := NextEpoch(projects[c.project].epoch);
      if epoch.None? {
        return false;
      }
      projects := projects[c.project := projects[c.project].(epoch := epoch.value)];
      profiles := profiles[h.serial := Profile(h.authority, generation.value, false, c.project, c.actor, c.detail)];
      return true;
    }

    method SetProfileSuspended(h: Handle, suspended: bool) returns (ok: bool)
      modifies this
      ensures Leaves(old(View()), SetSuspended(old(View()), h, suspended), ok)
    {
      if !Names(View(), h) {
        return false;
      }
      var profile := profiles[h.serial];
      if profile.suspended == suspended {
        return true;
      }
      var generation := NextEpoch(profile.generation);
      if generation.None? || h.project !in projects {
        return false;
      }
      var epoch := NextEpoch(projects[h.project].epoch);
      if epoch.None? {
        return false;
      }
      profiles := profiles[h.serial := profile.(suspended := suspended, generation := generation.value)];
      projects := projects[h.project := projects[h.project].(epoch := epoch.value)];
      return true;
    }

    method RegisterExecution(h: Handle, generation: nat, sealedHead: string) returns (serial: Option<nat>)
      modifies this
      ensures Leaves(old(View()), Register(old(View()), h, generation, sealedHead), serial.Some?)
      ensures serial.Some? ==> serial.value == old(nextSerial)
    {
      if !Usable(View(), h) || profiles[h.serial].generation != generation {
        return None;
      }
      serial := AllocateSerial();
      if serial.None? {
        return None;
      }
      registrations :=
        registrations[serial.value := Registration(h.authority, h.project, h.serial, generation, sealedHead)];
    }

    method IssuePermit(authority: Authority, session: Session, project: string, reg: nat,
                       seenEpoch: nat, seen: Registration, issuedAt: int, notAfter: int, grantExpires: int)
      returns (serial: Option<nat>)
      modifies this
      ensures Leaves(old(View()),
                     Issue(old(View()), authority, session, project, reg, seenEpoch, seen, issuedAt, notAfter,
                           grantExpires),
                     serial.Some?)
      ensures serial.Some? ==> serial.value == old(nextSerial)
    {
      if !Allowed(View(), project, session.actor) || projects[project].epoch != seenEpoch {
        return None;
      }
      if reg !in registrations || registrations[reg] != seen {
        return None;
      }
      if !ProfileStillServes(View(), seen.profile, authority, seen.generation, project, session.actor) {
        return None;
      }
      serial := AllocateSerial();
      if serial.None? {
        return None;
      }
      registrations := registrations - {reg};
      permits := permits[serial.value :=
        Permit(authority, session, project, seenEpoch, seen.profile, seen.generation, reg,
               issuedAt, notAfter, issuedAt, grantExpires, projects[project], profiles[seen.profile])];
    }

    method BurnPermit(authority: Authority, serial: nat) returns (record: Option<Permit>)
      modifies this
      ensures var b := Burn(old(View()), authority, serial);
              && record.Some? == b.Some?
              && View() == (if b.Some? then b.value.1 else old(View()))
              && (b.Some? ==> record.value == b.value.0)
    {
      if serial !in permits || permits[serial].authority != authority {
        return None;
      }
      record := Some(permits[serial]);
      permits := permits - {serial};
    }
  }
}
