/** What every run of headers on one chunk stream keeps about the rebuilt timestamp. */
module ChunkTimestamps {
  import opened Bytes
  import opened ChunkFormat

  datatype Event = Event(message: MessageHeader, extended: Option<nat>)

  /** Wire fields are at most 32 bits wide. */
  predicate Valid(e: Event) {
    && (e.extended.Some? ==> e.extended.value < 0x1_0000_0000)
    && match e.message {
         case Type0(timestamp, _, _, _) => timestamp < 0x100_0000
         case Type1(delta, _, _) => delta < 0x100_0000
         case Type2(delta) => delta < 0x100_0000
         case Type3 => true
       }
  }

  /** A chunk stream starts with a type 0 header; the importer refuses anything else. */
  predicate ValidRun(events: seq<Event>) {
    && events != [] && events[0].message.Type0?
    && forall e :: e in events ==> Valid(e)
  }

  function Latest(events: seq<Event>): Fields
    requires ValidRun(events)
  {
    var n := |events| - 1;
    CompleteFields(events[n].message, events[n].extended, if n == 0 then None else Some(Latest(events[..n])))
  }

  /** The value a header carries: absolute for type 0, a delta for types 1 and 2. */
  function Carried(e: Event): nat {
    match e.message
    case Type0(timestamp, _, _, _) => if e.extended.Some? then e.extended.value else timestamp
    case Type1(delta, _, _) => if e.extended.Some? then e.extended.value else delta
    case Type2(delta) => if e.extended.Some? then e.extended.value else delta
    case Type3 => 0
  }

  /** The delta a type 3 header repeats. */
  function CurrentDelta(events: seq<Event>): nat {
    if events == [] then 0
    else
      var e := events[|events| - 1];
      if e.message.Type0? then 0
      else if e.message.Type3? then CurrentDelta(events[..|events| - 1])
      else Carried(e)
  }

  /** The last absolute timestamp plus every delta since, without any rolling. */
  function Nominal(events: seq<Event>): nat {
    if events == [] then 0
    else
      var e := events[|events| - 1];
      if e.message.Type0? then Carried(e)
      else Nominal(events[..|events| - 1]) + CurrentDelta(events)
  }

  lemma {:induction false} DeltaIsCurrent(events: seq<Event>)
    requires ValidRun(events)
    ensures Latest(events).delta == CurrentDelta(events) < 0x1_0000_0000
  {
    var n := |events| - 1;
    assert events[n] in events;
    if n > 0 {
      DeltaIsCurrent(events[..n]);
    }
  }

  lemma RolledCongruent(last: nat, parsed: nat)
    ensures CalculateRolledTimestamp(last, parsed) % SERIAL == parsed % SERIAL
  {
    assert last - last % SERIAL == last / SERIAL * SERIAL;
  }

  lemma SumCongruent(a: nat, b: nat, d: nat)
    requires a % SERIAL == b % SERIAL
    ensures (a + d) % SERIAL == (b + d) % SERIAL
  {
  }

  /** The rebuilt timestamp is the nominal one modulo 2^31, and the remembered delta is the current one. */
  lemma {:induction false} CongruentToNominal(events: seq<Event>)
    requires ValidRun(events)
    ensures Latest(events).timestamp % SERIAL == Nominal(events) % SERIAL
  {
    hide CalculateRolledTimestamp;
    var n := |events| - 1;
    DeltaIsCurrent(events);
    if n > 0 {
      var before := events[..n];
      CongruentToNominal(before);
      DeltaIsCurrent(before);
      RolledCongruent(Latest(before).timestamp, Carried(events[n]));
      SumCongruent(Latest(before).timestamp, Nominal(before), CurrentDelta(events));
    }
  }

  /** One header never takes the clock back by 2^30 or more. */
  lemma NeverDropsFar(events: seq<Event>)
    requires ValidRun(events) && 2 <= |events|
    ensures Latest(events[..|events| - 1]).timestamp < Latest(events).timestamp + SERIAL / 2
  {
    assert events[|events| - 1] in events;
  }

  /** Growth is bounded by the number of headers. */
  lemma {:induction false} Bounded(events: seq<Event>)
    requires ValidRun(events)
    ensures Latest(events).timestamp <= |events| * (SERIAL + 0x1_0000_0000)
  {
    var n := |events| - 1;
    assert events[n] in events;
    DeltaIsCurrent(events);
    if n > 0 {
      Bounded(events[..n]);
    }
  }

  /** No 64-bit overflow within 2^30 headers. */
  lemma NoOverflow(events: seq<Event>)
    requires ValidRun(events) && |events| <= 0x4000_0000
    ensures Latest(events).timestamp < 0x8000_0000_0000_0000
  {
    Bounded(events);
  }

  /**
    The window of the rolling rule is 2^30, half of what its comment announces: a timestamp behind
    the last one stays behind it exactly when it is less than 2^30 away.
   */
  lemma StaysBehind(last: nat, parsed: nat)
    requires parsed < last
    ensures CalculateRolledTimestamp(last, parsed) < last <==> last - parsed < SERIAL / 2
  {
  }

  /** A timestamp ahead of the last one always stays ahead of it. */
  lemma StaysAhead(last: nat, parsed: nat)
    requires last < parsed
    ensures last < CalculateRolledTimestamp(last, parsed)
  {
  }

  /** Within 2^31 - 1 of each other, as the comment assumes, and yet rolled over. */
  lemma WindowExample()
    ensures 3_000_000_000 - 1_500_000_000 <= SERIAL - 1
    ensures CalculateRolledTimestamp(3_000_000_000, 1_500_000_000) > 3_000_000_000
  {
  }

  // ----- runs of absolute timestamps -----

  /**
    A run of type 0 headers alone, whose sender cuts the true times to `turn`: 2^32, the range of
    the wire field, or 2^31, the range the rolling rule is written for.
   */
  ghost predicate Absolute(events: seq<Event>, times: seq<nat>, turn: nat) {
    && (turn == SERIAL || turn == 2 * SERIAL)
    && ValidRun(events) && |times| == |events|
    && forall i :: 0 <= i < |events| ==> events[i].message.Type0? && Carried(events[i]) == times[i] % turn
  }

  /** Does every header of the run come to its true time? */
  predicate Rebuilt(events: seq<Event>, times: seq<nat>)
    requires ValidRun(events) && |times| == |events|
  {
    var n := |events| - 1;
    Latest(events).timestamp == times[n] && (n == 0 || Rebuilt(events[..n], times[..n]))
  }

  /**
    Is `next` found behind a true `last`? Near the last time its own low part must be the whole of
    it; elsewhere it must be on the turn of 2^31 right after that of the last time.
   */
  predicate Follows(last: nat, next: nat, turn: Positive) {
    if Abs(last - next % turn) < SERIAL / 2 then next < turn
    else next / turn * turn == (last / SERIAL + 1) * SERIAL
  }

  lemma RolledFollows(last: nat, next: nat, turn: Positive)
    ensures CalculateRolledTimestamp(last, next % turn) == next <==> Follows(last, next, turn)
  {
    assert last - last % SERIAL == last / SERIAL * SERIAL;
    assert next == next / turn * turn + next % turn;
    LowIsWhole(next, turn);
  }

  lemma LowIsWhole(x: nat, turn: Positive)
    ensures x % turn == x <==> x < turn
  {
    if x < turn {
      DivideUnique(x, turn, 0, x);
    }
  }

  lemma LatestAbsolute(events: seq<Event>)
    requires ValidRun(events) && events[|events| - 1].message.Type0?
    ensures var n := |events| - 1;
            Latest(events).timestamp ==
            if n == 0 then Carried(events[0])
            else CalculateRolledTimestamp(Latest(events[..n]).timestamp, Carried(events[n]))
  {
  }

  lemma AbsoluteBefore(events: seq<Event>, times: seq<nat>, turn: nat)
    requires Absolute(events, times, turn) && 2 <= |events|
    ensures Absolute(events[..|events| - 1], times[..|events| - 1], turn)
  {
    var n := |events| - 1;
    assert forall e :: e in events[..n] ==> e in events;
  }

  /** For any true times, near or far, forwards or backwards. */
  lemma {:induction false} RebuiltExactly(events: seq<Event>, times: seq<nat>, turn: Positive)
    requires Absolute(events, times, turn)
    ensures Rebuilt(events, times) <==>
            times[0] < turn && forall i :: 0 < i < |times| ==> Follows(times[i - 1], times[i], turn)
  {
    hide CalculateRolledTimestamp, Latest, Carried, Follows;
    var n := |events| - 1;
    LatestAbsolute(events);
    if n == 0 {
      LowIsWhole(times[0], turn);
    } else {
      var before := times[..n];
      assert forall i :: 0 <= i < n ==> before[i] == times[i];
      AbsoluteBefore(events, times, turn);
      RebuiltExactly(events[..n], before, turn);
      RolledFollows(times[n - 1], times[n], turn);
    }
  }

  /** Times that never go back and go on by less than 2^30, the window of the rule. */
  predicate Steady(times: seq<nat>) {
    forall i :: 0 < i < |times| ==> times[i - 1] <= times[i] < times[i - 1] + SERIAL / 2
  }

  /** The first turn and the step out of it are rebuilt; the step after that comes out 2^31 too large. */
  lemma RolledOnce(last: nat, next: nat, turn: nat)
    requires turn == SERIAL || turn == 2 * SERIAL
    requires last < turn + SERIAL / 2 && last <= next < last + SERIAL / 2
    ensures CalculateRolledTimestamp(last, next % turn) == if last < turn then next else next + SERIAL
  {
    assert last - last % SERIAL == last / SERIAL * SERIAL;
    assert next % turn == if next < turn then next else next - turn;
  }

  lemma {:induction false} SteadyFollows(times: seq<nat>, turn: Positive)
    requires times != [] && Steady(times) && (turn == SERIAL || turn == 2 * SERIAL)
    ensures times[0] < turn && (forall i :: 0 < i < |times| ==> Follows(times[i - 1], times[i], turn)) <==>
            times[0] < turn && forall i :: 0 <= i < |times| - 1 ==> times[i] < turn
  {
    hide CalculateRolledTimestamp, Follows;
    var n := |times| - 1;
    if n > 0 {
      var before := times[..n];
      assert forall i :: 0 <= i < n ==> before[i] == times[i];
      SteadyFollows(before, turn);
      if times[0] < turn && forall i :: 0 <= i < n - 1 ==> before[i] < turn {
        assert times[n - 1] < turn + SERIAL / 2 by {
          if n > 1 { assert before[n - 2] < turn; }
        }
        RolledOnce(times[n - 1], times[n], turn);
        RolledFollows(times[n - 1], times[n], turn);
      }
    }
  }

  /**
    A steady run is rebuilt exactly when no time but the last has left the first turn: the rule
    crosses the rollover once, and then takes the next small timestamp for another rollover.
   */
  lemma RebuiltOnFirstTurn(events: seq<Event>, times: seq<nat>, turn: Positive)
    requires Absolute(events, times, turn) && Steady(times)
    ensures Rebuilt(events, times) <==>
            times[0] < turn && forall i :: 0 <= i < |times| - 1 ==> times[i] < turn
  {
    hide Rebuilt, Follows;
    RebuiltExactly(events, times, turn);
    SteadyFollows(times, turn);
  }

  /** The first time of a steady run that is not rebuilt comes out 2^31 too large. */
  lemma FirstWrongTime(events: seq<Event>, times: seq<nat>, turn: Positive)
    requires Absolute(events, times, turn) && Steady(times) && 2 <= |events|
    requires Rebuilt(events[..|events| - 1], times[..|events| - 1]) && !Rebuilt(events, times)
    ensures Latest(events).timestamp == times[|times| - 1] + SERIAL
  {
    hide CalculateRolledTimestamp, Latest, Carried;
    var n := |events| - 1;
    LatestAbsolute(events);
    AbsoluteBefore(events, times, turn);
    RebuiltOnFirstTurn(events[..n], times[..n], turn);
    RolledOnce(times[n - 1], times[n], turn);
  }

  /** Ten milliseconds past the rollover and then fifty: the second header is rolled once more. */
  lemma RolledTwice()
    ensures CalculateRolledTimestamp(SERIAL - 100, 10) == SERIAL + 10
    ensures CalculateRolledTimestamp(SERIAL + 10, 50) == 2 * SERIAL + 50
  {
  }
}
