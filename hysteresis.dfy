/**
 * The entry/exit detector of Region.processPosition: a circular region with a
 * 5% hysteresis band. Entries must come inside radius * (1 - Epsilon) and exits
 * must go beyond radius * (1 + Epsilon); which of the two thresholds applies is
 * decided by whether the latest move approached the centre, not by a stored
 * inside/outside flag.
 *
 * Detect is stated, like the source, as a cascade of early returns over the
 * distances; here the distances are compared through their squares (see
 * module Coords). DetectByDistance is an independent statement of the same
 * rule over the true distances, and DetectMatchesDistances proves the two agree.
 */
module Hysteresis {
  import opened Wrappers
  import opened Coords
  import opened Events

  /** The debounce threshold, 0.05. */
  const Epsilon: real := 1.0 / 20.0

  /** Entries must come this close to the centre. */
  function Inner(radius: real): real { radius * (1.0 - Epsilon) }

  /** Exits must go this far from the centre. */
  function Outer(radius: real): real { radius * (1.0 + Epsilon) }

  /**
   * The event an actor's report generates for a region centred at center:
   * last is the actor's last known position (None for a first report).
   */
  function Detect(center: Coord, radius: real, last: Option<Coord>, newPos: Coord): (e: EventType)
    ensures e != STARTUP
    ensures e == EXIT ==> last.Some?
  {
    var newSq := SquaredDistTo(center, newPos);
    match last
    case None =>
      // an initial report can only trigger an entry
      if !AtMost(newSq, Inner(radius)) then NONE else ENTRY
    case Some(prev) =>
      var oldSq := SquaredDistTo(center, prev);
      if newSq < oldSq then
        if !AtMost(newSq, Inner(radius)) then NONE       // not in yet
        else if AtMost(oldSq, Inner(radius)) then NONE   // already in
        else ENTRY
      else
        if !AtLeast(newSq, Outer(radius)) then NONE      // not out yet
        else if AtLeast(oldSq, Outer(radius)) then NONE  // already out
        else EXIT
  }

  /**
   * The same detector over the distances themselves: an entry crosses the inner
   * threshold while approaching, an exit crosses the outer one while not approaching.
   */
  function DetectByDistance(newDist: real, oldDist: Option<real>, radius: real): EventType
  {
    match oldDist
    case None =>
      if newDist <= Inner(radius) then ENTRY else NONE
    case Some(od) =>
      if newDist < od then
        if newDist <= Inner(radius) && od > Inner(radius) then ENTRY else NONE
      else
        if newDist >= Outer(radius) && od < Outer(radius) then EXIT else NONE
  }

  /**
   * Comparing squared distances decides exactly as comparing any Euclidean
   * distances would: Detect agrees with DetectByDistance for every radius.
   */
  lemma {:induction false} DetectMatchesDistances(
    center: Coord, radius: real, last: Option<Coord>, newPos: Coord, newDist: real, oldDist: real)
    requires IsDistance(SquaredDistTo(center, newPos), newDist)
    requires last.Some? ==> IsDistance(SquaredDistTo(center, last.value), oldDist)
    ensures Detect(center, radius, last, newPos)
         == DetectByDistance(newDist, if last.Some? then Some(oldDist) else None, radius)
  {
    var newSq := SquaredDistTo(center, newPos);
    ThresholdComparisons(newSq, newDist, Inner(radius));
    ThresholdComparisons(newSq, newDist, Outer(radius));
    if last.Some? {
      var oldSq := SquaredDistTo(center, last.value);
      ThresholdComparisons(oldSq, oldDist, Inner(radius));
      ThresholdComparisons(oldSq, oldDist, Outer(radius));
      DistanceOrder(newSq, newDist, oldSq, oldDist);
    }
  }

  /** A first report yields an entry exactly when it lies within the inner threshold, and never an exit. */
  lemma FirstReport(newDist: real, radius: real)
    ensures DetectByDistance(newDist, None, radius) == ENTRY <==> newDist <= Inner(radius)
    ensures DetectByDistance(newDist, None, radius) != EXIT
  {
  }

  /** Re-reporting a position at the same distance never produces an event. */
  lemma {:induction false} SameDistanceIsQuiet(center: Coord, radius: real, last: Coord, newPos: Coord)
    requires SquaredDistTo(center, last) == SquaredDistTo(center, newPos)
    ensures Detect(center, radius, Some(last), newPos) == NONE
  {
  }

  /** A report that lies strictly inside the hysteresis band never produces an event, wherever the actor was. */
  lemma {:induction false} BandIsQuiet(center: Coord, radius: real, last: Option<Coord>, newPos: Coord)
    requires !AtMost(SquaredDistTo(center, newPos), Inner(radius))
    requires !AtLeast(SquaredDistTo(center, newPos), Outer(radius))
    ensures Detect(center, radius, last, newPos) == NONE
  {
  }

  /** An entry ends inside the inner threshold having approached; an exit ends beyond the outer one having receded. */
  lemma {:induction false} EventsCrossThresholds(center: Coord, radius: real, last: Option<Coord>, newPos: Coord)
    ensures Detect(center, radius, last, newPos) == ENTRY ==>
      AtMost(SquaredDistTo(center, newPos), Inner(radius)) &&
      (last.Some? ==>
         SquaredDistTo(center, newPos) < SquaredDistTo(center, last.value) &&
         !AtMost(SquaredDistTo(center, last.value), Inner(radius)))
    ensures Detect(center, radius, last, newPos) == EXIT ==>
      last.Some? &&
      AtLeast(SquaredDistTo(center, newPos), Outer(radius)) &&
      SquaredDistTo(center, last.value) <= SquaredDistTo(center, newPos) &&
      !AtLeast(SquaredDistTo(center, last.value), Outer(radius))
  {
  }

  /** Squared distance from the origin to a point on the x axis. */
  lemma AxisDistance(x: real)
    ensures SquaredDistTo(Coord(0.0, 0.0, 0.0), Coord(x, 0.0, 0.0)) == Square(x)
  {
  }

  /** The event for a report at x on the x axis, the previous one having been at prev, for a region of radius 1000 at the origin. */
  function AxisDetect(prev: Option<real>, x: real): EventType
  {
    Detect(Coord(0.0, 0.0, 0.0), 1000.0, if prev.Some? then Some(Coord(prev.value, 0.0, 0.0)) else None, Coord(x, 0.0, 0.0))
  }

  lemma DoorApproach()
    ensures AxisDetect(None, 2000.0) == NONE
    ensures AxisDetect(Some(2000.0), 900.0) == ENTRY
  {
    assert Inner(1000.0) == 950.0;
    AxisDistance(2000.0);
    AxisDistance(900.0);
    assert Square(2000.0) == 4000000.0 && Square(900.0) == 810000.0;
  }

  lemma DoorLeave()
    ensures AxisDetect(Some(900.0), 100.0) == NONE
    ensures AxisDetect(Some(100.0), 1200.0) == EXIT
  {
    assert Inner(1000.0) == 950.0 && Outer(1000.0) == 1050.0;
    AxisDistance(900.0);
    AxisDistance(100.0);
    AxisDistance(1200.0);
    assert Square(900.0) == 810000.0 && Square(100.0) == 10000.0 && Square(1200.0) == 1440000.0;
  }

  /**
   * The worked example of a door region of radius 1000 centred at the origin:
   * reports at x = 2000, 900, 100 and 1200 give nothing, an entry, nothing, an exit.
   */
  lemma DoorWalk()
    ensures AxisDetect(None, 2000.0) == NONE
    ensures AxisDetect(Some(2000.0), 900.0) == ENTRY
    ensures AxisDetect(Some(900.0), 100.0) == NONE
    ensures AxisDetect(Some(100.0), 1200.0) == EXIT
  {
    DoorApproach();
    DoorLeave();
  }

  lemma ReentryFirst()
    ensures AxisDetect(None, 100.0) == ENTRY
    ensures AxisDetect(Some(100.0), 1040.0) == NONE
  {
    assert Inner(1000.0) == 950.0 && Outer(1000.0) == 1050.0;
    AxisDistance(100.0);
    AxisDistance(1040.0);
    assert Square(100.0) == 10000.0 && Square(1040.0) == 1081600.0;
  }

  lemma ReentrySecond()
    ensures AxisDetect(Some(1040.0), 940.0) == ENTRY
  {
    assert Inner(1000.0) == 950.0;
    AxisDistance(1040.0);
    AxisDistance(940.0);
    assert Square(1040.0) == 1081600.0 && Square(940.0) == 883600.0;
  }

  /**
   * Choosing the threshold by the direction of the last move can report a second
   * entry with no exit in between: from near the centre (x = 100) the actor recedes to x = 1040 into the
   * band (no exit: the outer threshold is not reached), then steps back to x = 940,
   * inside the inner threshold, which counts as crossing it again.
   */
  lemma ReentryWithoutExit()
    ensures AxisDetect(None, 100.0) == ENTRY
    ensures AxisDetect(Some(100.0), 1040.0) == NONE
    ensures AxisDetect(Some(1040.0), 940.0) == ENTRY
  {
    ReentryFirst();
    ReentrySecond();
  }
}
