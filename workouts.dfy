/**
 * The workout records: a base record (coordinates, duration, distance, id,
 * date and description) and its two kinds. A running record adds the
 * elevation gain and its pace; a cycling record adds the cadence and its
 * speed. Both metrics are computed once, when the record is created, and
 * the record is never changed afterwards.
 */
module Workouts {
  import opened Wrappers
  import opened JsNumber
  import opened Decimal

  /** A point on the map, `[lat, lng]`. */
  datatype Coords = Coords(lat: real, lng: real)

  /** `Date.prototype.getMonth()`: 0 is January. */
  type Month = m: int | 0 <= m < 12

  /** `Date.prototype.getDay()`: the day of the week, 0 is Sunday. */
  type Weekday = d: int | 0 <= d < 7

  /** What a record reads from the clock when it is created: its `Date` and `Date.now()`. */
  datatype Clock = Clock(month: Month, weekday: Weekday, now: nat)

  datatype WorkoutType = Running | Cycling

  /** The part of a record that depends on its kind. */
  datatype Metrics =
    | RunningMetrics(elevationGain: real, pace: Num)
    | CyclingMetrics(cadence: real, speed: Num)

  datatype Workout = Workout(
    date: Clock,
    id: string,
    coords: Coords,
    duration: real,   // minutes
    distance: real,   // kilometres
    description: string,
    metrics: Metrics)
  {
    /** The record's `type` field. */
    function Kind(): WorkoutType {
      if metrics.RunningMetrics? then Running else Cycling
    }
  }

  const Months: seq<string> := [
    "January", "February", "March", "April", "May", "June", "July",
    "August", "September", "October", "November", "December"]

  /** The month table has an entry for every month the clock can report. */
  lemma MonthsCoverClock(c: Clock)
    ensures 0 <= c.month < |Months|
  {
  }

  /** `"on " + month name + " " + weekday index`, computed from the record's date. */
  function Description(c: Clock): (s: string)
    ensures |s| == 5 + |Months[c.month]|
    ensures s[..3] == "on " && s[3..|s| - 2] == Months[c.month]
    ensures s[|s| - 2..] == [' ', DigitChar(c.weekday)]
  {
    var name := Months[c.month];
    assert ("on " + name + " " + ToDecimal(c.weekday))[3..3 + |name|] == name;
    "on " + name + " " + ToDecimal(c.weekday)
  }

  /** The id: the last ten characters of the decimal text of `Date.now()`. */
  function Id(c: Clock): (id: string)
    ensures AllDigits(id) && 1 <= |id| <= 10
    ensures c.now >= Pow10(9) ==> |id| == 10
  {
    if c.now >= Pow10(9) then
      ToDecimalLength(c.now, 9);
      SliceLast(ToDecimal(c.now), 10)
    else
      SliceLast(ToDecimal(c.now), 10)
  }

  /** Pace in minutes per kilometre: `duration / distance`. */
  function Pace(duration: real, distance: real): (p: Num)
    ensures distance != 0.0 ==> p.Finite? && p.value * distance == duration
  {
    Divide(duration, distance)
  }

  /** Speed in kilometres per hour: `distance / (duration / 60)`. */
  function Speed(duration: real, distance: real): (v: Num)
    ensures duration != 0.0 ==> v.Finite? && v.value * duration == 60.0 * distance
  {
    Divide(distance, duration / 60.0)
  }

  /** `new Running(coords, duration, distance, elevationGain)` at clock reading `c`. */
  function NewRunning(c: Clock, coords: Coords, duration: real, distance: real, elevationGain: real): (w: Workout)
    ensures w.Kind() == Running && w.date == c && w.coords == coords
    ensures w.duration == duration && w.distance == distance
    ensures w.metrics.elevationGain == elevationGain && w.metrics.pace == Pace(duration, distance)
    ensures w.id == Id(c) && w.description == Description(c)
  {
    Workout(c, Id(c), coords, duration, distance, Description(c), RunningMetrics(elevationGain, Pace(duration, distance)))
  }

  /** `new Cycling(coords, duration, distance, cadence)` at clock reading `c`. */
  function NewCycling(c: Clock, coords: Coords, duration: real, distance: real, cadence: real): (w: Workout)
    ensures w.Kind() == Cycling && w.date == c && w.coords == coords
    ensures w.duration == duration && w.distance == distance
    ensures w.metrics.cadence == cadence && w.metrics.speed == Speed(duration, distance)
    ensures w.id == Id(c) && w.description == Description(c)
  {
    Workout(c, Id(c), coords, duration, distance, Description(c), CyclingMetrics(cadence, Speed(duration, distance)))
  }

  // ----- Properties of the metrics -----

  /** For a positive duration and distance, pace and speed are positive, finite and reciprocal up to the factor 60. */
  lemma PaceSpeedReciprocal(duration: real, distance: real)
    requires duration > 0.0 && distance > 0.0
    ensures Pace(duration, distance).Finite? && Pace(duration, distance).value > 0.0
    ensures Speed(duration, distance).Finite? && Speed(duration, distance).value > 0.0
    ensures Pace(duration, distance).value * Speed(duration, distance).value == 60.0
  {
  }

  /** A zero distance gives an infinite pace, a zero duration an infinite speed, as `x / 0` does. */
  lemma ZeroDenominators(duration: real, distance: real)
    requires duration > 0.0 && distance > 0.0
    ensures Pace(duration, 0.0) == PosInf && Speed(0.0, distance) == PosInf
    ensures Pace(0.0, 0.0) == NaN && Speed(0.0, 0.0) == NaN
  {
  }

  /** The sample running record `new Running([23, 10], 10, 20, 30)` has pace 0.5 whatever the clock says. */
  lemma SampleRunningPace(c: Clock)
    ensures NewRunning(c, Coords(23.0, 10.0), 10.0, 20.0, 30.0).metrics.pace == Finite(0.5)
  {
  }

  /** The sample cycling record `new Cycling([25, 24], 40, 50, 60)` has speed 75 whatever the clock says. */
  lemma SampleCyclingSpeed(c: Clock)
    ensures NewCycling(c, Coords(25.0, 24.0), 40.0, 50.0, 60.0).metrics.speed == Finite(75.0)
  {
  }

  // ----- Properties of the description -----

  /** The description's shape: the fixed prefix, the month's name, a space and one digit for the weekday. */
  lemma DescriptionShape(c: Clock)
    ensures var s := Description(c);
      |s| == 5 + |Months[c.month]| && s[..3] == "on " && s[3..|s| - 2] == Months[c.month]
      && s[|s| - 2] == ' ' && IsDigit(s[|s| - 1]) && DigitValue(s[|s| - 1]) == c.weekday
  {
  }

  /** The index of the first month whose name is `name`. */
  function MonthNamed(name: string, from: nat): (m: Option<nat>)
    requires from <= |Months|
    ensures m.Some? ==> from <= m.value < |Months| && Months[m.value] == name
    ensures m.Some? ==> forall j :: from <= j < m.value ==> Months[j] != name
    ensures m.None? ==> forall j :: from <= j < |Months| ==> Months[j] != name
    decreases |Months| - from
  {
    if from == |Months| then None
    else if Months[from] == name then Some(from)
    else MonthNamed(name, from + 1)
  }

  /** Reads the month and weekday back out of a description. */
  function ParseDescription(s: string): Option<(Month, Weekday)> {
    if |s| < 5 || s[..3] != "on " || s[|s| - 2] != ' ' || !IsDigit(s[|s| - 1]) then None
    else
      var d := DigitValue(s[|s| - 1]);
      match MonthNamed(s[3..|s| - 2], 0)
      case Some(m) => if d < 7 then Some((m, d)) else None
      case None => None
  }

  lemma MonthsDistinct()
    ensures forall i, j :: 0 <= i < j < |Months| ==> Months[i] != Months[j]
  {
  }

  /** The description can be read back: it determines the month and the weekday of the record's date. */
  lemma DescriptionRoundTrip(c: Clock)
    ensures ParseDescription(Description(c)) == Some((c.month, c.weekday))
  {
    var s := Description(c);
    DescriptionShape(c);
    MonthsDistinct();
    assert MonthNamed(s[3..|s| - 2], 0) == Some(c.month as nat);
  }

  /** Two records get the same description exactly when their dates share month and weekday. */
  lemma DescriptionEqualIff(c1: Clock, c2: Clock)
    ensures Description(c1) == Description(c2) <==> c1.month == c2.month && c1.weekday == c2.weekday
  {
    DescriptionRoundTrip(c1);
    DescriptionRoundTrip(c2);
  }

  // ----- Properties of the id -----

  /** The id is a digit string of at most ten characters giving `Date.now()` modulo `10^10`. */
  lemma IdIsLowDigits(c: Clock)
    ensures AllDigits(Id(c)) && 1 <= |Id(c)| <= 10
    ensures ValueOf(Id(c)) == c.now % Pow10(10)
  {
    var s := ToDecimal(c.now);
    ValueOfToDecimal(c.now);
    if |s| <= 10 {
      assert s == s[|s| - |s|..];
      SuffixValue(s, |s|);
      ToDecimalBound(c.now);
      Pow10Monotone(|s|, 10);
      assert c.now % Pow10(|s|) == c.now;
      ModUnique(c.now, 0, Pow10(10), c.now);
    } else {
      SuffixValue(s, 10);
    }
  }

  lemma {:induction false} Pow10Monotone(i: nat, j: nat)
    requires i <= j
    ensures Pow10(i) <= Pow10(j)
  {
    if i < j { Pow10Monotone(i, j - 1); }
  }

  /**
   * Ids are not unique: once the clock has ten digits, two clock readings
   * get the same id exactly when they agree modulo `10^10`.
   */
  lemma IdCollision(c1: Clock, c2: Clock)
    requires c1.now >= Pow10(9) && c2.now >= Pow10(9)
    ensures Id(c1) == Id(c2) <==> c1.now % Pow10(10) == c2.now % Pow10(10)
  {
    IdIsLowDigits(c1);
    IdIsLowDigits(c2);
    ToDecimalLength(c1.now, 9);
    ToDecimalLength(c2.now, 9);
    if c1.now % Pow10(10) == c2.now % Pow10(10) {
      ValueOfInjective(Id(c1), Id(c2));
    }
  }
}
