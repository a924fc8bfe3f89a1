/** The ticket lock around publication: one step takes a ticket, enters, or leaves. */
module FairGate {
  import opened Words

  /** Where one thread stands: the ticket it took, and whether it is through. */
  datatype Seat = Seat(ticket: nat, inside: bool)

  /** The gate's three counters, the threads at it, and every ticket that has entered so far. */
  datatype Gate = Gate(next: nat, serving: nat, occupied: bool, seats: map<nat, Seat>, entered: seq<nat>)

  const CLOSED := Gate(0, 0, false, map[], [])

  predicate CanTake(g: Gate, t: nat) { t !in g.seats && g.next < U64_MAX }

  function Take(g: Gate, t: nat): Gate {
    if CanTake(g, t) then g.(next := g.next + 1, seats := g.seats[t := Seat(g.next, false)]) else g
  }

  /** The wait loop ends for the thread whose ticket is served while nobody is inside. */
  predicate CanEnter(g: Gate, t: nat) {
    t in g.seats && !g.seats[t].inside && !g.occupied && g.serving == g.seats[t].ticket
  }

  function Enter(g: Gate, t: nat): Gate {
    if CanEnter(g, t) then
      g.(occupied := true, seats := g.seats[t := Seat(g.serving, true)], entered := g.entered + [g.serving])
    else g
  }

  predicate CanLeave(g: Gate, t: nat) { t in g.seats && g.seats[t].inside }

  function Leave(g: Gate, t: nat): Gate {
    if CanLeave(g, t) then g.(occupied := false, serving := g.serving + 1, seats := g.seats - {t}) else g
  }

  // ----- What every step keeps -----

  /** Some thread at the gate holds this ticket. */
  ghost predicate Held(g: Gate, ticket: nat) { exists t :: t in g.seats && g.seats[t].ticket == ticket }

  ghost predicate Ok(g: Gate) {
    && g.serving <= g.next <= U64_MAX
    && (forall t | t in g.seats :: g.serving <= g.seats[t].ticket < g.next)
    && (forall t, u | t in g.seats && u in g.seats && t != u :: g.seats[t].ticket != g.seats[u].ticket)
    && (forall t | t in g.seats && g.seats[t].inside :: g.seats[t].ticket == g.serving && g.occupied)
    && (g.occupied ==> exists t :: t in g.seats && g.seats[t].inside)
    && (forall k | g.serving <= k < g.next :: Held(g, k))
    && g.entered == seq(g.serving + (if g.occupied then 1 else 0), i => i)
  }

  lemma ClosedIsOk()
    ensures Ok(CLOSED)
  {
  }

  lemma TakeKeeps(g: Gate, t: nat)
    requires Ok(g)
    ensures Ok(Take(g, t))
  {
    var n := Take(g, t);
    if CanTake(g, t) {
      forall k | n.serving <= k < n.next ensures Held(n, k) {
        if k < g.next {
          assert Held(g, k);
          var u :| u in g.seats && g.seats[u].ticket == k;
          assert n.seats[u] == g.seats[u];
        } else {
          assert n.seats[t].ticket == k;
        }
      }
      if g.occupied {
        var u :| u in g.seats && g.seats[u].inside;
        assert n.seats[u].inside;
      }
    }
  }

  lemma EnterKeeps(g: Gate, t: nat)
    requires Ok(g)
    ensures Ok(Enter(g, t))
  {
    var n := Enter(g, t);
    if CanEnter(g, t) {
      assert n.seats[t].inside;
      forall k | n.serving <= k < n.next ensures Held(n, k) {
        assert Held(g, k);
        var u :| u in g.seats && g.seats[u].ticket == k;
        assert n.seats[u].ticket == k;
      }
    }
  }

  lemma LeaveKeeps(g: Gate, t: nat)
    requires Ok(g)
    ensures Ok(Leave(g, t))
  {
    var n := Leave(g, t);
    if CanLeave(g, t) {
      forall k | n.serving <= k < n.next ensures Held(n, k) {
        assert Held(g, k);
        var u :| u in g.seats && g.seats[u].ticket == k;
        assert u != t && n.seats[u].ticket == k;
      }
      forall u | u in n.seats ensures n.serving <= n.seats[u].ticket && !n.seats[u].inside {
        assert g.seats[u].ticket != g.seats[t].ticket;
      }
    }
  }

  // ----- What that means -----

  /** Never two threads inside. */
  lemma OneHolder(g: Gate, t: nat, u: nat)
    requires Ok(g) && CanLeave(g, t) && CanLeave(g, u)
    ensures t == u
  {
  }

  /** The increment on leaving cannot overflow. */
  lemma LeavingNeverOverflows(g: Gate, t: nat)
    requires Ok(g) && CanLeave(g, t)
    ensures g.serving + 1 <= U64_MAX
  {
    assert g.serving <= g.seats[t].ticket < g.next;
  }

  /** With tickets outstanding, somebody is inside or the thread to be served next is waiting and can enter at once. */
  lemma NobodyIsLost(g: Gate)
    requires Ok(g) && g.serving < g.next
    ensures (exists t :: CanLeave(g, t)) || exists t :: CanEnter(g, t)
  {
    assert Held(g, g.serving);
    var t :| t in g.seats && g.seats[t].ticket == g.serving;
    if !g.occupied {
      assert CanEnter(g, t);
    } else {
      var u :| u in g.seats && g.seats[u].inside;
      assert CanLeave(g, u);
    }
  }

  // ----- Every run -----

  datatype Act = TakeTicket(t: nat) | TryEnter(t: nat) | Drop(t: nat)

  function Do(g: Gate, a: Act): Gate {
    match a
    case TakeTicket(t) => Take(g, t)
    case TryEnter(t) => Enter(g, t)
    case Drop(t) => Leave(g, t)
  }

  function RunGate(acts: seq<Act>): Gate {
    if acts == [] then CLOSED else Do(RunGate(acts[..|acts| - 1]), acts[|acts| - 1])
  }

  /** In every run, entries happen exactly in ticket order: the i-th thread through holds ticket i. */
  lemma {:induction false} EntriesFollowTickets(acts: seq<Act>)
    ensures Ok(RunGate(acts))
    ensures forall i | 0 <= i < |RunGate(acts).entered| :: RunGate(acts).entered[i] == i
  {
    if acts == [] {
      ClosedIsOk();
    } else {
      var init, a := acts[..|acts| - 1], acts[|acts| - 1];
      EntriesFollowTickets(init);
      TakeKeeps(RunGate(init), a.t);
      EnterKeeps(RunGate(init), a.t);
      LeaveKeeps(RunGate(init), a.t);
    }
  }

  /**
   * In every run, whoever leaves was alone inside and leaves without overflow, and nobody who holds
   * a ticket is lost.
   */
  lemma EveryRunIsExclusive(acts: seq<Act>, t: nat, u: nat)
    ensures var g := RunGate(acts);
            && (CanLeave(g, t) ==> g.serving + 1 <= U64_MAX && (CanLeave(g, u) ==> t == u))
            && (t in g.seats ==> (exists k :: CanLeave(g, k)) || exists k :: CanEnter(g, k))
  {
    hide RunGate;
    EntriesFollowTickets(acts);
    var g := RunGate(acts);
    if CanLeave(g, t) {
      LeavingNeverOverflows(g, t);
      if CanLeave(g, u) { OneHolder(g, t, u); }
    }
    if t in g.seats { NobodyIsLost(g); }
  }
}
