/** The creator's recording clock: a logical time that never repeats, printed as canonical timestamps. */
module Clock {
  import opened Optional
  import opened Timestamp
  import opened Words

  datatype ProtocolTime = ProtocolTime(timestamp: string, unixNanos: int)

  /** What the system clock returned: nanoseconds since the epoch, or a failure. */
  type Reading = Outcome<int, ClockError>
  type Tick = Outcome<ProtocolTime, ClockError>

  /** The next logical time: past the last one, unless adding one to it would overflow. */
  function Logical(last: Option<int>, observed: int): int {
    if last.None? || last.value == I128_MAX then observed
    else if observed < last.value + 1 then last.value + 1 else observed
  }

  function After(last: Option<int>, r: Reading): Option<int> {
    if r.Failed? then last else Some(Logical(last, r.value))
  }

  function Printed(logical: int): Tick {
    if !(I64_MIN <= logical <= I64_MAX) then Failed(BeyondReflogRange) else
    var text := FormatTimestamp(logical / BILLION, logical % BILLION);
    if text.Failed? then Failed(text.error) else Done(ProtocolTime(text.value, logical))
  }

  function TickOf(last: Option<int>, r: Reading): Tick {
    if r.Failed? then Failed(r.error) else Printed(Logical(last, r.value))
  }

  class RecordingClock {
    var last: Option<int>

    constructor ()
      ensures last == None
    {
      last := None;
    }

    /** One tick. The last time moves even when the new time cannot be printed; a failed reading leaves it. */
    method Tick(r: Reading) returns (t: Tick)
      modifies this
      ensures last == After(old(last), r)
      ensures t == TickOf(old(last), r)
    {
      if r.Failed? {
        return Failed(r.error);
      }
      var logical := r.value;
      if last.Some? && last.value != I128_MAX {
        var next := last.value + 1;
        if logical < next { logical := next; }
      }
      last := Some(logical);
      if logical < I64_MIN || I64_MAX < logical {
        return Failed(BeyondReflogRange);
      }
      var text := FormatTimestamp(logical / BILLION, logical % BILLION);
      t := if text.Failed? then Failed(text.error) else Done(ProtocolTime(text.value, logical));
    }
  }

  /** A tick can be printed exactly when its logical time is in the non-negative i64 range. */
  lemma PrintedSucceedsExactly(logical: int)
    ensures Printed(logical).Done? <==> 0 <= logical <= I64_MAX
    ensures Printed(logical).Done? ==>
      ParseTimestamp(Printed(logical).value.timestamp) == Timestamp.Done(logical)
  {
    hide FormatTimestamp, ParseTimestamp;
    FormatSucceedsExactly(logical / BILLION, logical % BILLION);
    if FormatTimestamp(logical / BILLION, logical % BILLION).Done? {
      PrintedTimestampParses(logical / BILLION, logical % BILLION);
    }
  }

  // ----- Whole runs -----

  function LastAfter(rs: seq<Reading>): Option<int> {
    if rs == [] then None else After(LastAfter(rs[..|rs| - 1]), rs[|rs| - 1])
  }

  function Ticks(rs: seq<Reading>): (ts: seq<Tick>)
    ensures |ts| == |rs|
  {
    if rs == [] then [] else Ticks(rs[..|rs| - 1]) + [TickOf(LastAfter(rs[..|rs| - 1]), rs[|rs| - 1])]
  }

  /** The readings that succeeded, in order. */
  function Observed(rs: seq<Reading>): seq<int> {
    if rs == [] then []
    else Observed(rs[..|rs| - 1]) + (if rs[|rs| - 1].Done? then [rs[|rs| - 1].value] else [])
  }

  /** The logical times of a run of successful readings. */
  function Logicals(obs: seq<int>): (ls: seq<int>)
    ensures |ls| == |obs|
  {
    if obs == [] then [] else
    var before := Logicals(obs[..|obs| - 1]);
    before + [Logical(LastOf(before), obs[|obs| - 1])]
  }

  function LastOf(ls: seq<int>): Option<int> {
    if ls == [] then None else Some(ls[|ls| - 1])
  }

  predicate Increasing(ls: seq<int>) { forall i, j | 0 <= i < j < |ls| :: ls[i] < ls[j] }

  /** Counting one nanosecond for every later reading, no reading reaches the bound. */
  predicate Below(obs: seq<int>, bound: int) { forall i | 0 <= i < |obs| :: obs[i] + (|obs| - 1 - i) < bound }

  /** Every reading before the last leaves room below the i128 ceiling. */
  predicate Room(obs: seq<int>) { obs == [] || Below(obs[..|obs| - 1], I128_MAX) }

  lemma {:induction false} LogicalStaysBelow(obs: seq<int>, bound: int)
    requires obs != [] && Below(obs, bound) && bound <= I128_MAX
    ensures Logicals(obs)[|obs| - 1] < bound
  {
    var init := obs[..|obs| - 1];
    if init != [] { LogicalStaysBelow(init, bound - 1); }
  }

  lemma {:induction false} RoomShrinks(obs: seq<int>)
    requires obs != [] && Room(obs)
    ensures Room(obs[..|obs| - 1])
  {
    var init := obs[..|obs| - 1];
    if init != [] {
      var first := init[..|init| - 1];
      forall i | 0 <= i < |first| ensures first[i] + (|first| - 1 - i) < I128_MAX {
        assert init[i] + (|init| - 1 - i) < I128_MAX;
      }
    }
  }

  lemma {:induction false} RoomIsEnough(obs: seq<int>)
    requires Room(obs)
    ensures Increasing(Logicals(obs))
  {
    if obs != [] {
      var init := obs[..|obs| - 1];
      RoomShrinks(obs);
      RoomIsEnough(init);
      if init != [] { LogicalStaysBelow(init, I128_MAX); }
    }
  }

  lemma {:induction false} LogicalsDominate(obs: seq<int>, i: nat)
    requires i < |obs| && Increasing(Logicals(obs))
    ensures obs[i] + (|obs| - 1 - i) <= Logicals(obs)[|obs| - 1]
  {
    var init := obs[..|obs| - 1];
    if i < |init| {
      forall a, b | 0 <= a < b < |init| ensures Logicals(init)[a] < Logicals(init)[b] {
        assert Logicals(obs)[a] == Logicals(init)[a] && Logicals(obs)[b] == Logicals(init)[b];
      }
      LogicalsDominate(init, i);
      assert Logicals(obs)[|init| - 1] < Logicals(obs)[|init|];
    }
  }

  lemma {:induction false} LogicalsInRange(obs: seq<int>)
    requires forall i | 0 <= i < |obs| :: obs[i] <= I128_MAX
    ensures forall i | 0 <= i < |obs| :: Logicals(obs)[i] <= I128_MAX
  {
    if obs != [] { LogicalsInRange(obs[..|obs| - 1]); }
  }

  lemma {:induction false} RoomIsNeeded(obs: seq<int>)
    requires Increasing(Logicals(obs)) && forall i | 0 <= i < |obs| :: obs[i] <= I128_MAX
    ensures Room(obs)
  {
    if obs != [] {
      LogicalsInRange(obs);
      var init := obs[..|obs| - 1];
      if init != [] {
        assert Logicals(obs)[|init| - 1] < Logicals(obs)[|init|];
        forall a, b | 0 <= a < b < |init| ensures Logicals(init)[a] < Logicals(init)[b] {
          assert Logicals(obs)[a] == Logicals(init)[a] && Logicals(obs)[b] == Logicals(init)[b];
        }
        forall i | 0 <= i < |init| ensures init[i] + (|init| - 1 - i) < I128_MAX {
          LogicalsDominate(init, i);
        }
      }
    }
  }

  /** The logical clock never stalls or runs backwards exactly when the readings leave room below the ceiling. */
  lemma {:induction false} ClockAdvancesExactlyWithRoom(obs: seq<int>)
    requires forall i | 0 <= i < |obs| :: obs[i] <= I128_MAX
    ensures Increasing(Logicals(obs)) <==> Room(obs)
  {
    if Room(obs) { RoomIsEnough(obs); }
    if Increasing(Logicals(obs)) { RoomIsNeeded(obs); }
  }

  /** Failed readings change nothing: the clock's state is that of the successful readings alone. */
  lemma {:induction false} FailuresLeaveTheClock(rs: seq<Reading>)
    ensures LastAfter(rs) == LastOf(Logicals(Observed(rs)))
  {
    if rs != [] {
      var init, r := rs[..|rs| - 1], rs[|rs| - 1];
      FailuresLeaveTheClock(init);
      if r.Done? {
        assert Observed(rs)[..|Observed(init)|] == Observed(init);
      } else {
        assert Observed(rs) == Observed(init);
      }
    }
  }

  lemma {:induction false} SuccessesStayBehind(rs: seq<Reading>, i: nat)
    requires i < |rs| && Room(Observed(rs)) && Ticks(rs)[i].Done?
    ensures LastAfter(rs).Some? && Ticks(rs)[i].value.unixNanos <= LastAfter(rs).value
  {
    hide Printed;
    var init, r := rs[..|rs| - 1], rs[|rs| - 1];
    RoomOfInit(rs);
    if i < |init| {
      SuccessesStayBehind(init, i);
    } else {
      PrintedTime(Logical(LastAfter(init), r.value));
    }
  }

  lemma PrintedTime(logical: int)
    ensures Printed(logical).Done? ==> Printed(logical).value.unixNanos == logical
  {
    hide FormatTimestamp;
  }

  lemma RoomOfInit(rs: seq<Reading>)
    requires rs != [] && Room(Observed(rs))
    ensures var init := rs[..|rs| - 1];
            && Room(Observed(init))
            && (rs[|rs| - 1].Done? && LastAfter(init).Some? ==> LastAfter(init).value < I128_MAX)
  {
    hide Logicals;
    var init := rs[..|rs| - 1];
    FailuresLeaveTheClock(init);
    if rs[|rs| - 1].Done? {
      assert Observed(rs)[..|Observed(init)|] == Observed(init);
      RoomShrinks(Observed(rs));
      if Observed(init) != [] { LogicalStaysBelow(Observed(init), I128_MAX); }
    } else {
      assert Observed(rs) == Observed(init);
    }
  }

  lemma {:induction false} SuccessiveTicksIncrease(rs: seq<Reading>, i: nat, j: nat)
    requires i < j < |rs| && Room(Observed(rs)) && Ticks(rs)[i].Done? && Ticks(rs)[j].Done?
    ensures Ticks(rs)[i].value.unixNanos < Ticks(rs)[j].value.unixNanos
  {
    hide Printed;
    var init, r := rs[..|rs| - 1], rs[|rs| - 1];
    RoomOfInit(rs);
    if j < |init| {
      SuccessiveTicksIncrease(init, i, j);
    } else {
      SuccessesStayBehind(init, i);
      PrintedTime(Logical(LastAfter(init), r.value));
    }
  }

  lemma {:induction false} TicksAreParsable(rs: seq<Reading>, i: nat)
    requires i < |rs| && Ticks(rs)[i].Done?
    ensures var t := Ticks(rs)[i].value; ParseTimestamp(t.timestamp) == Timestamp.Done(t.unixNanos)
  {
    hide Printed, ParseTimestamp;
    var init, r := rs[..|rs| - 1], rs[|rs| - 1];
    if i < |init| {
      TicksAreParsable(init, i);
    } else {
      PrintedSucceedsExactly(Logical(LastAfter(init), r.value));
      PrintedTime(Logical(LastAfter(init), r.value));
    }
  }

  /**
   * Over any run of readings, failed ones included, that leaves room below the ceiling: successful
   * ticks strictly increase, and so do their printed timestamps in byte order.
   */
  lemma TicksAndTextsIncrease(rs: seq<Reading>, i: nat, j: nat)
    requires i < j < |rs| && Room(Observed(rs)) && Ticks(rs)[i].Done? && Ticks(rs)[j].Done?
    ensures Ticks(rs)[i].value.unixNanos < Ticks(rs)[j].value.unixNanos
    ensures Precedes(Ticks(rs)[i].value.timestamp, Ticks(rs)[j].value.timestamp)
  {
    hide Ticks, Observed, ParseTimestamp, Precedes;
    SuccessiveTicksIncrease(rs, i, j);
    TicksAreParsable(rs, i);
    TicksAreParsable(rs, j);
    TextOrderIsTimeOrder(Ticks(rs)[i].value.timestamp, Ticks(rs)[j].value.timestamp);
  }

  /**
   * Readings that all stay below the ceiling are not enough: a tick that lands one short of it is
   * bumped onto it, and the following tick then starts over from the system clock.
   */
  lemma ClockRunsBackwardsAtTheCeiling(high: int, low: int)
    requires 0 <= low < high <= I64_MAX
    ensures var rs := BackwardRun(high, low);
            && (forall k | 0 <= k < |rs| :: rs[k].Done? && rs[k].value < I128_MAX)
            && Ticks(rs)[0].Done? && Ticks(rs)[3].Done?
            && Ticks(rs)[3].value.unixNanos < Ticks(rs)[0].value.unixNanos
  {
    hide Printed, LastAfter, Ticks, ParseTimestamp;
    var r1: seq<Reading> := [Done(high)];
    var r2: seq<Reading> := r1 + [Done(I128_MAX - 1)];
    var r3: seq<Reading> := r2 + [Done(0)];
    OneMore([], Done(high));
    OneMore(r1, Done(I128_MAX - 1));
    OneMore(r2, Done(0));
    OneMore(r3, Done(low));
    assert [] + [Done(high)] == r1 && r3 + [Done(low)] == BackwardRun(high, low);
    PrintedSucceedsExactly(high);
    PrintedSucceedsExactly(low);
    PrintedTime(high);
    PrintedTime(low);
  }

  function BackwardRun(high: int, low: int): (rs: seq<Reading>)
    ensures |rs| == 4
  {
    [Done(high), Done(I128_MAX - 1), Done(0), Done(low)]
  }

  lemma OneMore(rs: seq<Reading>, r: Reading)
    ensures LastAfter([]) == None && Ticks([]) == []
    ensures LastAfter(rs + [r]) == After(LastAfter(rs), r)
    ensures Ticks(rs + [r]) == Ticks(rs) + [TickOf(LastAfter(rs), r)]
  {
    assert (rs + [r])[..|rs|] == rs;
  }

  // ----- How many readings a bound on the system clock allows -----

  /** At most so many readings succeed, and none lies past the bound. */
  predicate Bounded(rs: seq<Reading>, count: nat, bound: int) {
    |Observed(rs)| <= count && forall i | 0 <= i < |rs| :: rs[i].Done? ==> rs[i].value <= bound
  }

  ghost predicate TicksIncrease(rs: seq<Reading>) {
    forall i, j | 0 <= i < j < |rs| :: InOrder(Ticks(rs)[i], Ticks(rs)[j])
  }

  ghost predicate InOrder(a: Tick, b: Tick) {
    a.Done? && b.Done? ==> a.value.unixNanos < b.value.unixNanos && Precedes(a.value.timestamp, b.value.timestamp)
  }

  /**
   * How far the count may reach past the distance from the bound to the ceiling. Past the printable
   * range one reading more is needed before anything can go wrong.
   */
  function Slack(bound: int): int { if bound <= I64_MAX then 2 else 3 }

  lemma {:induction false} ObservedInBound(rs: seq<Reading>, count: nat, bound: int)
    requires Bounded(rs, count, bound)
    ensures forall i | 0 <= i < |Observed(rs)| :: Observed(rs)[i] <= bound
  {
    if rs != [] {
      var init := rs[..|rs| - 1];
      assert forall i | 0 <= i < |init| :: init[i] == rs[i];
      ObservedInBound(init, count, bound);
    }
  }

  lemma BoundGivesRoom(rs: seq<Reading>, count: nat, bound: int)
    requires Bounded(rs, count, bound) && 0 <= bound && |Observed(rs)| + bound < I128_MAX + 2
    ensures Room(Observed(rs))
  {
    hide Observed;
    ObservedInBound(rs, count, bound);
  }

  /** While there is room, a success is never below the first reading. */
  lemma {:induction false} NeverBelowTheFirst(rs: seq<Reading>, i: nat)
    requires i < |rs| && Room(Observed(rs)) && Ticks(rs)[i].Done?
    ensures Observed(rs) != [] && Observed(rs)[0] <= Ticks(rs)[i].value.unixNanos
  {
    hide Printed;
    var init, r := rs[..|rs| - 1], rs[|rs| - 1];
    RoomOfInit(rs);
    if i < |init| {
      NeverBelowTheFirst(init, i);
    } else {
      PrintedTime(Logical(LastAfter(init), r.value));
      LastIsPastTheFirst(init);
    }
  }

  lemma {:induction false} LastIsPastTheFirst(rs: seq<Reading>)
    requires Room(Observed(rs))
    ensures Observed(rs) == [] ==> LastAfter(rs) == None
    ensures Observed(rs) != [] ==> LastAfter(rs).Some? && Observed(rs)[0] <= LastAfter(rs).value
  {
    if rs != [] {
      RoomOfInit(rs);
      LastIsPastTheFirst(rs[..|rs| - 1]);
    }
  }

  lemma PairIncreases(rs: seq<Reading>, i: nat, j: nat)
    requires Room(Observed(rs)) && i < j < |rs|
    ensures InOrder(Ticks(rs)[i], Ticks(rs)[j])
  {
    hide Ticks, Observed, Room, Precedes;
    if Ticks(rs)[i].Done? && Ticks(rs)[j].Done? { TicksAndTextsIncrease(rs, i, j); }
  }

  lemma {:induction false} BoundIsEnough(rs: seq<Reading>, count: nat, bound: int, i: nat, j: nat)
    requires Bounded(rs, count, bound) && 0 <= bound && count + bound < I128_MAX + Slack(bound) && i < j < |rs|
    ensures InOrder(Ticks(rs)[i], Ticks(rs)[j])
    decreases |rs|
  {
    hide InOrder, Printed, LastAfter;
    var init, r := rs[..|rs| - 1], rs[|rs| - 1];
    assert forall k | 0 <= k < |init| :: init[k] == rs[k];
    if |Observed(rs)| + bound < I128_MAX + 2 {
      BoundGivesRoom(rs, count, bound);
      PairIncreases(rs, i, j);
    } else if j < |init| {
      BoundIsEnough(init, count, bound, i, j);
    } else {
      LastOfTooMany(rs, count, bound, i);
    }
  }

  /**
   * With one reading too many for room, either the first one was not at the bound, or nothing
   * before the last could be printed.
   */
  lemma LastOfTooMany(rs: seq<Reading>, count: nat, bound: int, i: nat)
    requires Bounded(rs, count, bound) && I64_MAX < bound && |Observed(rs)| + bound == I128_MAX + 2 && i < |rs| - 1
    ensures InOrder(Ticks(rs)[i], Ticks(rs)[|rs| - 1])
  {
    hide Printed, LastAfter, Precedes;
    var init, r := rs[..|rs| - 1], rs[|rs| - 1];
    assert forall k | 0 <= k < |init| :: init[k] == rs[k];
    if r.Done? {
      BoundGivesRoom(init, count, bound);
      if Room(Observed(rs)) {
        PairIncreases(rs, i, |rs| - 1);
      } else if Ticks(init)[i].Done? {
        NeverBelowTheFirst(init, i);
        FirstAtTheBound(rs, count, bound);
        TickInRange(init, i);
      }
    }
  }

  lemma FirstAtTheBound(rs: seq<Reading>, count: nat, bound: int)
    requires Bounded(rs, count, bound) && |Observed(rs)| + bound == I128_MAX + 2 && !Room(Observed(rs))
    ensures Observed(rs)[0] == bound
  {
    hide Observed;
    ObservedInBound(rs, count, bound);
  }

  lemma {:induction false} TickInRange(rs: seq<Reading>, i: nat)
    requires i < |rs| && Ticks(rs)[i].Done?
    ensures 0 <= Ticks(rs)[i].value.unixNanos <= I64_MAX
  {
    hide Printed, LastAfter;
    var init := rs[..|rs| - 1];
    if i < |init| {
      TickInRange(init, i);
    } else {
      PrintedSucceedsExactly(Logical(LastAfter(init), rs[|rs| - 1].value));
      PrintedTime(Logical(LastAfter(init), rs[|rs| - 1].value));
    }
  }

  // ----- One reading more is too many -----

  /** The same reading again and again. */
  function Repeat(x: int, n: nat): (rs: seq<Reading>)
    ensures |rs| == n && forall i | 0 <= i < n :: rs[i] == Done(x)
  {
    if n == 0 then [] else Repeat(x, n - 1) + [Done(x)]
  }

  lemma RepeatNext(start: seq<Reading>, x: int, n: nat)
    ensures start + Repeat(x, n + 1) == start + Repeat(x, n) + [Done(x)]
    ensures start + Repeat(x, 0) == start
  {
  }

  lemma {:induction false} Climbs(start: seq<Reading>, x: int, n: nat)
    requires LastAfter(start).None? || LastAfter(start).value < x
    requires x + n <= I128_MAX
    ensures LastAfter(start + Repeat(x, n + 1)) == Some(x + n)
    decreases n
  {
    hide LastAfter, Repeat, After;
    RepeatNext(start, x, n);
    if n > 0 { Climbs(start, x, n - 1); }
    var before := start + Repeat(x, n);
    ClimbsOne(LastAfter(before), x, n);
    OneMore(before, Done(x));
  }

  lemma {:induction false} RepeatIsObserved(start: seq<Reading>, x: int, n: nat)
    ensures |Observed(start + Repeat(x, n))| == |Observed(start)| + n
    decreases n
  {
    hide Observed, Repeat;
    if n == 0 {
      RepeatNext(start, x, 0);
    } else {
      RepeatNext(start, x, n - 1);
      ObservedMore(start + Repeat(x, n - 1), Done(x));
      RepeatIsObserved(start, x, n - 1);
    }
  }

  lemma ClimbsOne(last: Option<int>, x: int, n: nat)
    requires x + n <= I128_MAX && if n == 0 then last.None? || last.value < x else last == Some(x + (n - 1))
    ensures After(last, Done(x)) == Some(x + n)
  {
  }

  lemma ObservedMore(rs: seq<Reading>, r: Reading)
    ensures Observed(rs + [r]) == Observed(rs) + (if r.Done? then [r.value] else [])
  {
    assert (rs + [r])[..|rs|] == rs;
  }

  /** A printable time, then a climb from the bound onto the ceiling. */
  function Climb(bound: int): seq<Reading>
    requires 0 <= bound <= I128_MAX
  {
    First(bound) + Repeat(bound, I128_MAX - bound + 1)
  }

  function First(bound: int): seq<Reading> { if bound <= I64_MAX then [] else [Done(0)] }

  /** After it the clock starts over. */
  function TooMany(bound: int): seq<Reading>
    requires 0 <= bound <= I128_MAX
  {
    Climb(bound) + [Done(0)]
  }

  lemma ClimbEnds(bound: int)
    requires 0 <= bound <= I128_MAX
    ensures LastAfter(Climb(bound)) == Some(I128_MAX) && |Observed(Climb(bound))| == I128_MAX - bound + Slack(bound) - 1
  {
    hide LastAfter, Observed, Repeat;
    FirstEnds(bound);
    Climbs(First(bound), bound, I128_MAX - bound);
    RepeatIsObserved(First(bound), bound, I128_MAX - bound + 1);
  }

  lemma FirstEnds(bound: int)
    requires 0 <= bound
    ensures LastAfter(First(bound)).None? || LastAfter(First(bound)).value < bound
    ensures |Observed(First(bound))| == Slack(bound) - 2
  {
    var none: seq<Reading> := [];
    OneMore(none, Done(0));
    ObservedMore(none, Done(0));
    assert none + [Done(0)] == [Done(0)];
  }

  lemma TooManyIsBounded(bound: int, count: nat)
    requires 0 <= bound <= I128_MAX && count + bound >= I128_MAX + Slack(bound)
    ensures Bounded(TooMany(bound), count, bound)
  {
    hide Observed, Repeat;
    ClimbEnds(bound);
    ObservedMore(Climb(bound), Done(0));
  }

  lemma TooManyStartsOver(bound: int)
    requires 0 <= bound <= I128_MAX
    ensures !TicksIncrease(TooMany(bound))
  {
    hide LastAfter, Observed, Ticks, Printed, InOrder, Repeat;
    var rs := TooMany(bound);
    ClimbEnds(bound);
    OneMore(Climb(bound), Done(0));
    FirstTick(rs, bound);
    PrintedSucceedsExactly(0);
    PrintedTime(0);
    OutOfOrder(Ticks(rs)[0], Ticks(rs)[|rs| - 1]);
  }

  lemma OutOfOrder(a: Tick, b: Tick)
    requires a.Done? && b.Done? && b.value.unixNanos <= a.value.unixNanos
    ensures !InOrder(a, b)
  {
    hide Precedes;
  }

  lemma FirstTick(rs: seq<Reading>, bound: int)
    requires 0 <= bound && rs != [] && rs[0] == Done(if bound <= I64_MAX then bound else 0)
    ensures Ticks(rs)[0].Done? && 0 <= Ticks(rs)[0].value.unixNanos
    decreases |rs|
  {
    hide Printed, LastAfter;
    if |rs| == 1 {
      OneMore([], rs[0]);
      assert [] + [rs[0]] == rs;
      PrintedSucceedsExactly(rs[0].value);
      PrintedTime(rs[0].value);
    } else {
      FirstTick(rs[..|rs| - 1], bound);
    }
  }

  /**
   * If the system clock never passes a bound, then successful ticks and their texts strictly increase
   * over every run of so many successful readings, failures in between included, if and only if the
   * bound and the count together stay below the ceiling.
   */
  lemma TicksIncreaseExactlyUnderBound(count: nat, bound: int)
    requires 0 <= bound <= I128_MAX
    ensures (forall rs | Bounded(rs, count, bound) :: TicksIncrease(rs)) <==> count + bound < I128_MAX + Slack(bound)
  {
    hide Ticks, Bounded, InOrder;
    if count + bound < I128_MAX + Slack(bound) {
      forall rs | Bounded(rs, count, bound) ensures TicksIncrease(rs) {
        forall i, j | 0 <= i < j < |rs| ensures InOrder(Ticks(rs)[i], Ticks(rs)[j]) {
          BoundIsEnough(rs, count, bound, i, j);
        }
      }
    } else {
      TooManyIsBounded(bound, count);
      TooManyStartsOver(bound);
    }
  }

  // ----- One given run -----

  /** The clock has no time yet, stands before the epoch, or stands on the ceiling, where adding one would overflow. */
  predicate Outside(last: Option<int>) { last.None? || last.value < 0 || last.value == I128_MAX }

  /** Every time printed so far lies before this one. */
  predicate AllBefore(ticks: seq<Tick>, time: int) {
    forall i | 0 <= i < |ticks| && ticks[i].Done? :: ticks[i].value.unixNanos < time
  }

  /** What to check before the next tick: from outside, the clock comes back past every time printed so far. */
  predicate ComesBackLater(rs: seq<Reading>, r: Reading) {
    Outside(LastAfter(rs)) && TickOf(LastAfter(rs), r).Done? ==> AllBefore(Ticks(rs), Logical(LastAfter(rs), r.value))
  }

  lemma {:induction false} TextsFollowTimes(rs: seq<Reading>, i: nat, j: nat)
    requires i < |rs| && j < |rs| && Ticks(rs)[i].Done? && Ticks(rs)[j].Done?
    ensures InOrder(Ticks(rs)[i], Ticks(rs)[j]) <==> Ticks(rs)[i].value.unixNanos < Ticks(rs)[j].value.unixNanos
  {
    hide Ticks, ParseTimestamp, Precedes;
    TicksAreParsable(rs, i);
    TicksAreParsable(rs, j);
    TextOrderIsTimeOrder(Ticks(rs)[i].value.timestamp, Ticks(rs)[j].value.timestamp);
  }

  lemma TickTime(last: Option<int>, r: Reading)
    requires TickOf(last, r).Done?
    ensures r.Done? && TickOf(last, r).value.unixNanos == Logical(last, r.value)
    ensures 0 <= Logical(last, r.value) <= I64_MAX
  {
    hide Printed;
    PrintedTime(Logical(last, r.value));
    PrintedSucceedsExactly(Logical(last, r.value));
  }

  /** One more tick keeps the order exactly when it is past every time printed before. */
  lemma OneMoreInOrder(rs: seq<Reading>, r: Reading)
    ensures TicksIncrease(rs + [r]) <==>
              TicksIncrease(rs)
              && (TickOf(LastAfter(rs), r).Done? ==> AllBefore(Ticks(rs), Logical(LastAfter(rs), r.value)))
  {
    hide Ticks, LastAfter, InOrder, TickOf;
    var all, k := rs + [r], |rs|;
    OneMore(rs, r);
    if TickOf(LastAfter(rs), r).Done? { TickTime(LastAfter(rs), r); }
    forall i | 0 <= i < k && Ticks(rs)[i].Done? && TickOf(LastAfter(rs), r).Done?
      ensures InOrder(Ticks(all)[i], Ticks(all)[k]) <==>
                Ticks(rs)[i].value.unixNanos < Logical(LastAfter(rs), r.value)
    {
      TextsFollowTimes(all, i, k);
    }
    forall i | 0 <= i < k
      ensures !Ticks(all)[i].Done? || !Ticks(all)[k].Done? ==> InOrder(Ticks(all)[i], Ticks(all)[k]) {
      FailureIsInOrder(Ticks(all)[i], Ticks(all)[k]);
    }
    assert forall i | 0 <= i < k :: Ticks(all)[i] == Ticks(rs)[i];
  }

  lemma FailureIsInOrder(a: Tick, b: Tick)
    ensures !a.Done? || !b.Done? ==> InOrder(a, b)
  {
    hide Precedes;
  }

  /** While the order holds and the clock stands in the printable range, it stands at or past everything printed. */
  lemma {:induction false} StandsPastAll(rs: seq<Reading>, i: nat)
    requires TicksIncrease(rs) && i < |rs| && Ticks(rs)[i].Done?
    requires LastAfter(rs).Some? && 0 <= LastAfter(rs).value <= I64_MAX
    ensures Ticks(rs)[i].value.unixNanos <= LastAfter(rs).value
  {
    hide Ticks, LastAfter, TicksIncrease, TickOf;
    var init, r := rs[..|rs| - 1], rs[|rs| - 1];
    assert rs == init + [r];
    OneMore(init, r);
    OneMoreInOrder(init, r);
    if r.Failed? {
      if i < |init| { StandsPastAll(init, i); } else { NoTick(LastAfter(init), r); }
    } else {
      GoodTick(LastAfter(init), r);
    }
  }

  lemma NoTick(last: Option<int>, r: Reading)
    requires r.Failed?
    ensures !TickOf(last, r).Done?
  {
  }

  lemma GoodTick(last: Option<int>, r: Reading)
    requires r.Done? && 0 <= Logical(last, r.value) <= I64_MAX
    ensures TickOf(last, r).Done? && TickOf(last, r).value.unixNanos == Logical(last, r.value)
  {
    hide Printed;
    PrintedSucceedsExactly(Logical(last, r.value));
    PrintedTime(Logical(last, r.value));
  }

  /** From inside the range no check is needed. */
  lemma InsideAdvances(rs: seq<Reading>, r: Reading)
    requires TicksIncrease(rs) && !Outside(LastAfter(rs)) && TickOf(LastAfter(rs), r).Done?
    ensures AllBefore(Ticks(rs), Logical(LastAfter(rs), r.value))
  {
    hide Ticks, LastAfter, TicksIncrease, TickOf;
    TickTime(LastAfter(rs), r);
    forall i | 0 <= i < |rs| && Ticks(rs)[i].Done?
      ensures Ticks(rs)[i].value.unixNanos < Logical(LastAfter(rs), r.value) {
      StandsPastAll(rs, i);
    }
  }

  /**
   * Over one given run, failures included: successful ticks and their texts strictly increase if and
   * only if, whenever the clock had no time yet, stood before the epoch or stood on the ceiling, a
   * next tick that could be printed was past everything printed before.
   */
  lemma {:induction false} TicksIncreaseExactly(rs: seq<Reading>)
    ensures TicksIncrease(rs) <==> forall k | 0 <= k < |rs| :: ComesBackLater(rs[..k], rs[k])
  {
    hide Ticks, LastAfter, TicksIncrease, TickOf, AllBefore, Outside;
    if rs == [] {
      NothingOutOfOrder();
    } else {
      var n := |rs| - 1;
      var init, r := rs[..n], rs[n];
      assert rs == init + [r];
      TicksIncreaseExactly(init);
      OneMoreInOrder(init, r);
      if TicksIncrease(init) && !Outside(LastAfter(init)) && TickOf(LastAfter(init), r).Done? {
        InsideAdvances(init, r);
      }
      assert forall k | 0 <= k < n :: init[..k] == rs[..k] && init[k] == rs[k];
    }
  }

  lemma NothingOutOfOrder()
    ensures TicksIncrease([])
  {
  }
}
