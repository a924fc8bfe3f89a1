/**
 * What control operations leave behind over whole runs: who has access, what a profile says and
 * whether it is suspended is exactly the last word said about it, and nothing happens without it.
 */
module FencingAccess {
  import opened Optional
  import opened Words
  import opened Security
  import opened Fencing
  import opened FencingState
  import opened FencingRuns
  import FairGate

  // ----- Operations that went through -----

  predicate RoomToAdvance(s: State, project: string) { project in s.projects && s.projects[project].epoch < U64_MAX }

  /** When a control operation is carried out: what it names exists, and no counter it must advance is at its end. */
  predicate Accepts(s: State, op: ControlOp) {
    match op
    case GrantAccess(project, actor) =>
      project in s.projects && (Allowed(s, project, actor) || RoomToAdvance(s, project))
    case RevokeAccess(project, actor) =>
      project in s.projects && (!Allowed(s, project, actor) || RoomToAdvance(s, project))
    case InstallProfile(_, config) => config.project in s.projects && s.nextSerial < U64_MAX
    case ReplaceProfile(h, config) =>
      && h.project == config.project && Names(s, h)
      && s.profiles[h.serial].generation < U64_MAX && RoomToAdvance(s, h.project)
    case SuspendProfile(h, suspended) =>
      && Names(s, h)
      && (|| s.profiles[h.serial].suspended == suspended
          || (s.profiles[h.serial].generation < U64_MAX && RoomToAdvance(s, h.project)))
  }

  lemma AcceptedExactly(s: State, op: ControlOp)
    ensures ApplyOp(s, op).Some? <==> Accepts(s, op)
  {
  }

  /** The control operation that an event carries out, if it does. */
  function Effect(s: System, e: Event): Option<ControlOp> {
    match (At(s, e.thread), e.action)
    case (Inside(Control(op)), Work(_)) => if Accepts(s.state, op) then Some(op) else None
    case _ => None
  }

  function EffectAt(projects: set<string>, events: seq<Event>, i: nat): Option<ControlOp>
    requires i < |events|
  {
    Effect(Run(projects, events[..i]), events[i])
  }

  /** A step changes projects and profiles only by the operation it carries out. */
  lemma OnlyEffects(s: System, e: Event)
    ensures var n := Step(s, e.thread, e.action);
            match Effect(s, e)
            case Some(op) => ApplyOp(s.state, op).Some? && n.state == ApplyOp(s.state, op).value
            case None => n.state.projects == s.state.projects && n.state.profiles == s.state.profiles
  {
    hide ApplyOp, Accepts, Issue, Register, Burn, Live, InTime, Usable, Preparable, DeadlineOf, CoreAllows, Askable,
         DeadlineReading, FairGate.CanTake, FairGate.CanEnter, FairGate.CanLeave, FairGate.Take, FairGate.Enter,
         FairGate.Leave, ProjectOf, WorkStep;
    if At(s, e.thread).Inside? && e.action.Work? {
      WorkEffects(s, e.thread, At(s, e.thread).job, e.action.reading);
    }
    if e.action.Consume? && Burn(s.state, e.action.authority, e.action.serial).Some? {
      BurnIsQuiet(s.state, e.action.authority, e.action.serial);
    }
  }

  lemma WorkEffects(s: System, t: nat, job: Job, r: Reading)
    ensures var n := WorkStep(s, t, job, r);
            if job.Control? && Accepts(s.state, job.op)
            then ApplyOp(s.state, job.op).Some? && n.state == ApplyOp(s.state, job.op).value
            else n.state.projects == s.state.projects && n.state.profiles == s.state.profiles
  {
    hide ApplyOp, Accepts, Live, InTime, Usable, Preparable, DeadlineOf, CoreAllows, DeadlineReading;
    if job.Control? { AcceptedExactly(s.state, job.op); }
  }

  // ----- Access -----

  /** What an operation says about one actor's access, if anything. */
  function AccessWord(op: Option<ControlOp>, project: string, actor: string): Option<bool> {
    if op == Some(GrantAccess(project, actor)) then Some(true)
    else if op == Some(RevokeAccess(project, actor)) then Some(false)
    else None
  }

  lemma AccessStep(s: System, e: Event, project: string, actor: string)
    ensures var word := AccessWord(Effect(s, e), project, actor);
            Allowed(Step(s, e.thread, e.action).state, project, actor)
            <==> if word.Some? then word.value else Allowed(s.state, project, actor)
  {
    hide Step, Effect;
    OnlyEffects(s, e);
    if Effect(s, e).Some? {
      AccessOp(s.state, Effect(s, e).value, project, actor);
    }
  }

  lemma AccessOp(s: State, op: ControlOp, project: string, actor: string)
    requires ApplyOp(s, op).Some?
    ensures var word := AccessWord(Some(op), project, actor);
            Allowed(ApplyOp(s, op).value, project, actor)
            <==> if word.Some? then word.value else Allowed(s, project, actor)
  {
  }

  /** The last grant or revocation of the actor that went through was a grant. */
  ghost predicate LastWordIsGrant(projects: set<string>, events: seq<Event>, project: string, actor: string) {
    exists i | 0 <= i < |events| ::
      && EffectAt(projects, events, i) == Some(GrantAccess(project, actor))
      && forall j | i < j < |events| :: EffectAt(projects, events, j) != Some(RevokeAccess(project, actor))
  }

  lemma EffectOfPrefix(projects: set<string>, events: seq<Event>, k: nat, i: nat)
    requires i < k <= |events|
    ensures EffectAt(projects, events[..k], i) == EffectAt(projects, events, i)
  {
    assert events[..k][..i] == events[..i];
  }

  lemma LastWordStep(projects: set<string>, events: seq<Event>, project: string, actor: string)
    requires events != []
    ensures var k := |events| - 1;
            var word := AccessWord(EffectAt(projects, events, k), project, actor);
            LastWordIsGrant(projects, events, project, actor)
            <==> if word.Some? then word.value else LastWordIsGrant(projects, events[..k], project, actor)
  {
    hide EffectAt;
    var k := |events| - 1;
    forall i: nat | i < k ensures EffectAt(projects, events[..k], i) == EffectAt(projects, events, i) {
      EffectOfPrefix(projects, events, k, i);
    }
  }

  /** Over every run: an actor has access exactly when the last grant or revocation of theirs was a grant. */
  lemma {:induction false} AccessIsTheLastWord(projects: set<string>, events: seq<Event>, project: string,
                                               actor: string)
    ensures Allowed(Run(projects, events).state, project, actor)
            <==> LastWordIsGrant(projects, events, project, actor)
  {
    hide Step, LastWordIsGrant, Effect;
    if events == [] {
      NoWordYet(projects, project, actor);
    } else {
      var k := |events| - 1;
      AccessIsTheLastWord(projects, events[..k], project, actor);
      AccessStep(Run(projects, events[..k]), events[k], project, actor);
      LastWordStep(projects, events, project, actor);
    }
  }

  lemma NoWordYet(projects: set<string>, project: string, actor: string)
    ensures !LastWordIsGrant(projects, [], project, actor)
    ensures !Allowed(Initial(projects).state, project, actor)
  {
  }

  // ----- Profiles -----

  /** What an operation says about whether a profile is suspended, if anything. */
  function SuspensionWord(op: Option<ControlOp>, serial: nat): Option<bool> {
    match op
    case Some(SuspendProfile(h, suspended)) => if h.serial == serial then Some(suspended) else None
    case Some(ReplaceProfile(h, _)) => if h.serial == serial then Some(false) else None
    case _ => None
  }

  predicate Suspended(s: State, serial: nat) { serial in s.profiles && s.profiles[serial].suspended }

  lemma SuspensionOp(s: State, op: ControlOp, serial: nat)
    requires ApplyOp(s, op).Some? && forall k | k in s.profiles :: k < s.nextSerial
    ensures var word := SuspensionWord(Some(op), serial);
            Suspended(ApplyOp(s, op).value, serial) <==> if word.Some? then word.value else Suspended(s, serial)
  {
  }

  lemma SuspensionStep(s: System, e: Event, serial: nat)
    requires Invariant(s)
    ensures var word := SuspensionWord(Effect(s, e), serial);
            Suspended(Step(s, e.thread, e.action).state, serial)
            <==> if word.Some? then word.value else Suspended(s.state, serial)
  {
    hide Step, Effect, ApplyOp, ThreadsOk, GatesOk, HistoryOk, CarriersOk, Fenced, RegistrationOk, HandleOk;
    OnlyEffects(s, e);
    if Effect(s, e).Some? { SuspensionOp(s.state, Effect(s, e).value, serial); }
  }

  /** The last suspension, resumption or replacement of the profile that went through suspended it. */
  ghost predicate LastWordIsSuspension(projects: set<string>, events: seq<Event>, serial: nat) {
    exists i | 0 <= i < |events| ::
      && SuspensionWord(EffectAt(projects, events, i), serial) == Some(true)
      && forall j | i < j < |events| :: SuspensionWord(EffectAt(projects, events, j), serial) != Some(false)
  }

  lemma LastSuspensionStep(projects: set<string>, events: seq<Event>, serial: nat)
    requires events != []
    ensures var k := |events| - 1;
            var word := SuspensionWord(EffectAt(projects, events, k), serial);
            LastWordIsSuspension(projects, events, serial)
            <==> if word.Some? then word.value else LastWordIsSuspension(projects, events[..k], serial)
  {
    hide EffectAt, SuspensionWord;
    var k := |events| - 1;
    forall i: nat | i < k ensures EffectAt(projects, events[..k], i) == EffectAt(projects, events, i) {
      EffectOfPrefix(projects, events, k, i);
    }
  }

  /** Over every run: a profile is suspended exactly when the last word on it was a suspension. */
  lemma {:induction false} SuspensionIsTheLastWord(projects: set<string>, events: seq<Event>, serial: nat)
    ensures Suspended(Run(projects, events).state, serial) <==> LastWordIsSuspension(projects, events, serial)
  {
    hide Step, LastWordIsSuspension, Effect, Invariant, SuspensionWord;
    if events == [] {
      NoSuspensionYet(projects, serial);
    } else {
      var k := |events| - 1;
      SuspensionIsTheLastWord(projects, events[..k], serial);
      RunKeeps(projects, events[..k]);
      SuspensionStep(Run(projects, events[..k]), events[k], serial);
      LastSuspensionStep(projects, events, serial);
    }
  }

  lemma NoSuspensionYet(projects: set<string>, serial: nat)
    ensures !LastWordIsSuspension(projects, [], serial) && !Suspended(Initial(projects).state, serial)
  {
  }

  /** What an operation writes into a profile: a new one under the next serial, or a replacement. */
  function Writes(s: State, op: Option<ControlOp>, serial: nat): Option<(Authority, Config)> {
    match op
    case Some(InstallProfile(authority, config)) => if s.nextSerial == serial then Some((authority, config)) else None
    case Some(ReplaceProfile(h, config)) => if h.serial == serial then Some((h.authority, config)) else None
    case _ => None
  }

  predicate Says(s: State, serial: nat, written: (Authority, Config)) {
    && serial in s.profiles && s.profiles[serial].authority == written.0
    && Config(s.profiles[serial].project, s.profiles[serial].actor, s.profiles[serial].config) == written.1
  }

  lemma ProfileOp(s: State, op: ControlOp, serial: nat, written: (Authority, Config))
    requires ApplyOp(s, op).Some?
    ensures var now := Writes(s, Some(op), serial);
            Says(ApplyOp(s, op).value, serial, written)
            <==> if now.Some? then now.value == written else Says(s, serial, written)
  {
  }

  lemma ProfileStep(s: System, e: Event, serial: nat, written: (Authority, Config))
    ensures var now := Writes(s.state, Effect(s, e), serial);
            Says(Step(s, e.thread, e.action).state, serial, written)
            <==> if now.Some? then now.value == written else Says(s.state, serial, written)
  {
    hide Step, Effect, ApplyOp, Says;
    OnlyEffects(s, e);
    if Effect(s, e).Some? {
      ProfileOp(s.state, Effect(s, e).value, serial, written);
    } else {
      SaysAlike(s.state, Step(s, e.thread, e.action).state, serial, written);
    }
  }

  lemma SaysAlike(s: State, n: State, serial: nat, written: (Authority, Config))
    requires n.profiles == s.profiles
    ensures Says(n, serial, written) <==> Says(s, serial, written)
  {
  }

  function WritesAt(projects: set<string>, events: seq<Event>, i: nat, serial: nat): Option<(Authority, Config)>
    requires i < |events|
  {
    Writes(Run(projects, events[..i]).state, EffectAt(projects, events, i), serial)
  }

  /** This was the last thing written into the profile. */
  ghost predicate LastWritten(projects: set<string>, events: seq<Event>, serial: nat, written: (Authority, Config)) {
    exists i | 0 <= i < |events| ::
      && WritesAt(projects, events, i, serial) == Some(written)
      && forall j | i < j < |events| :: WritesAt(projects, events, j, serial).None?
  }

  lemma LastWrittenStep(projects: set<string>, events: seq<Event>, serial: nat, written: (Authority, Config))
    requires events != []
    ensures var k := |events| - 1;
            var now := WritesAt(projects, events, k, serial);
            LastWritten(projects, events, serial, written)
            <==> if now.Some? then now.value == written else LastWritten(projects, events[..k], serial, written)
  {
    hide WritesAt;
    var k := |events| - 1;
    forall i: nat | i < k ensures WritesAt(projects, events[..k], i, serial) == WritesAt(projects, events, i, serial) {
      WritesOfPrefix(projects, events, k, i, serial);
    }
  }

  lemma WritesOfPrefix(projects: set<string>, events: seq<Event>, k: nat, i: nat, serial: nat)
    requires i < k <= |events|
    ensures WritesAt(projects, events[..k], i, serial) == WritesAt(projects, events, i, serial)
  {
    hide EffectAt, Run, Writes;
    EffectOfPrefix(projects, events, k, i);
    assert events[..k][..i] == events[..i];
  }

  /** Over every run: a profile says exactly what was last written into it. */
  lemma {:induction false} ProfileIsWhatWasLastWritten(projects: set<string>, events: seq<Event>, serial: nat,
                                                       written: (Authority, Config))
    ensures Says(Run(projects, events).state, serial, written) <==> LastWritten(projects, events, serial, written)
  {
    hide Step, LastWritten, Effect, Says, Writes;
    if events == [] {
      NothingWritten(projects, serial, written);
    } else {
      var k := |events| - 1;
      ProfileIsWhatWasLastWritten(projects, events[..k], serial, written);
      ProfileStep(Run(projects, events[..k]), events[k], serial, written);
      LastWrittenStep(projects, events, serial, written);
    }
  }

  lemma NothingWritten(projects: set<string>, serial: nat, written: (Authority, Config))
    ensures !LastWritten(projects, [], serial, written) && !Says(Initial(projects).state, serial, written)
  {
  }
}
