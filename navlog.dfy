/** The navigation log (computeNavlog): the route is resolved into nodes, one average wind is
    taken for the whole route, and each node in turn has its course wind- and compass-corrected
    in place and contributes its time, fuel and distance to running totals.

    `Navlog` is the value the computation must produce; `ComputeNavlog` produces it the way the
    source does, mutating the nodes and accumulating in a loop (`FlyRoute`).
 */
module Navlog {
  import opened Outcome
  import opened JavaLang
  import opened Entities
  import opened CourseCorrector
  import opened WindsAloft
  import opened RouteResolver

  // ---------------------------------------------------------------- formatting

  /** truncate: `Math.floor(value * 100) / 100`, the value cut down to whole hundredths. */
  function Truncate(value: real): (r: real)
    ensures r <= value < r + 0.01
    ensures (r * 100.0).Floor as real == r * 100.0
  {
    ((value * 100.0).Floor as real) / 100.0
  }

  /** The two numbers formatTime prints. */
  datatype ClockTime = ClockTime(hours: int, minutes: int)

  /** `hours = (int) totalHours` and `minutes = (int) ((totalHours - hours) * 60)`. */
  function ClockOf(totalHours: real): ClockTime {
    var hours := TruncToInt(totalHours);
    ClockTime(hours, TruncToInt((totalHours - hours as real) * 60.0))
  }

  /** For a time that is not negative, formatTime shows the whole hours and the whole minutes
      left over, and together they count the whole minutes in the time. */
  lemma {:induction false} ClockOfHours(totalHours: real)
    requires 0.0 <= totalHours
    ensures ClockOf(totalHours).hours == totalHours.Floor
    ensures 0 <= ClockOf(totalHours).minutes < 60
    ensures ClockOf(totalHours).hours * 60 + ClockOf(totalHours).minutes == (totalHours * 60.0).Floor
  {
    var c := ClockOf(totalHours);
    var f := totalHours - c.hours as real;
    assert 0.0 <= f < 1.0;
    assert c.minutes as real <= f * 60.0 < c.minutes as real + 1.0;
    var total := c.hours * 60 + c.minutes;
    assert total as real <= totalHours * 60.0 < total as real + 1.0;
  }

  /** `%02d`: a single digit gets a leading zero, anything else is printed as it is. */
  function Pad2(n: int): string {
    if 0 <= n < 10 then "0" + IntToString(n) else IntToString(n)
  }

  /** formatTime: `String.format("%02d:%02d", hours, minutes)` (NavigationServiceImpl.java, lines 393-398). */
  function FormatTime(totalHours: real): string {
    var c := ClockOf(totalHours);
    Pad2(c.hours) + ":" + Pad2(c.minutes)
  }

  /** Reads "H:M" text back as the two numbers either side of the colon. */
  function ReadClock(text: string): Result<ClockTime> {
    var fields := JavaSplit(text, ':');
    if |fields| < 2 then Err(IndexOutOfBounds)
    else
      var hours :- ParseInt(fields[0]);
      var minutes :- ParseInt(fields[1]);
      Ok(ClockTime(hours, minutes))
  }

  lemma {:induction false} ParseIntOfPad2(n: int)
    requires 0 <= n <= IntMax
    ensures ParseInt(Pad2(n)) == Ok(n)
    ensures ':' !in Pad2(n) && |Pad2(n)| >= 2
  {
    IntToStringHasNo(n, ':');
    ParseIntOfIntToString(n);
    if n < 10 {
      var s := Pad2(n);
      assert IntToString(n) == [DigitChar(n)];
      assert s == ['0', DigitChar(n)];
      assert s[..1] == "0";
      assert AllDigits(s);
      assert DigitsValue(s) == n;
    } else {
      assert |NatToDigits(n / 10)| > 0;
    }
  }

  /** formatTime's text reads back as the clock it printed, hours first. */
  lemma {:induction false} ReadClockOfFormatTime(totalHours: real, text: string)
    requires 0.0 <= totalHours && totalHours.Floor <= IntMax
    requires text == FormatTime(totalHours)
    ensures ReadClock(text) == Ok(ClockOf(totalHours))
  {
    var c := ClockOf(totalHours);
    ClockOfHours(totalHours);
    ParseIntOfPad2(c.hours);
    ParseIntOfPad2(c.minutes);
    var parts := [Pad2(c.hours), Pad2(c.minutes)];
    assert parts[1..] == [Pad2(c.minutes)];
    assert JoinWith(parts, ':') == FormatTime(totalHours);
    JavaSplitOfJoin(parts, ':');
  }

  /** The ETE text as it is meant: the accumulated leg times are minutes, so they are turned
      into hours before formatTime splits them into hours and minutes. */
  function FormatEte(totalMinutes: real): string {
    FormatTime(totalMinutes / 60.0)
  }

  /** A minute count is shown as whole hours and the whole minutes left over. */
  lemma {:induction false} FormatEteOfMinutes(totalMinutes: real)
    requires 0.0 <= totalMinutes && totalMinutes.Floor <= IntMax
    ensures ReadClock(FormatEte(totalMinutes)) == Ok(ClockOf(totalMinutes / 60.0))
    ensures 0 <= ClockOf(totalMinutes / 60.0).minutes < 60
    ensures ClockOf(totalMinutes / 60.0).hours * 60 + ClockOf(totalMinutes / 60.0).minutes == totalMinutes.Floor
  {
    var totalHours := totalMinutes / 60.0;
    MinutesAsHours(totalMinutes);
    assert 0.0 <= totalHours && totalHours.Floor <= IntMax;
    ReadClockOfFormatTime(totalHours, FormatEte(totalMinutes));
    ClockOfHours(totalHours);
    assert (totalHours * 60.0).Floor == totalMinutes.Floor;
  }

  lemma {:induction false} MinutesAsHours(totalMinutes: real)
    requires 0.0 <= totalMinutes
    ensures 0.0 <= totalMinutes / 60.0 && (totalMinutes / 60.0) * 60.0 == totalMinutes
    ensures (totalMinutes / 60.0).Floor <= totalMinutes.Floor
  {
  }

  /** As written, computeNavlog hands formatTime the accumulated leg times, which are minutes
      (the time covers the leg at the ground speed taken per minute), so the minute count lands
      in the hours field: a 30 nm leg at 60 kt prints as "30:00" instead of "00:30". */
  lemma {:induction false} EteAsWrittenShowsMinutesAsHours(groundspeed: real, distance: real)
    requires 0.0 < groundspeed && 0.0 <= distance
    ensures TimeForLeg(groundspeed, distance).value * (groundspeed / 60.0) == distance
    ensures ClockOf(TimeForLeg(groundspeed, distance).value).hours == (distance / (groundspeed / 60.0)).Floor
    ensures FormatTime(TimeForLeg(60.0, 30.0).value) == "30:00"
    ensures FormatEte(TimeForLeg(60.0, 30.0).value) == "00:30"
  {
    var minutes := TimeForLeg(groundspeed, distance).value;
    TimeForLegCoversDistance(groundspeed, distance);
    assert 0.0 <= minutes;
    ClockOfHours(minutes);
    assert TimeForLeg(60.0, 30.0).value == 30.0;
    assert ClockOf(30.0) == ClockTime(30, 0);
    assert NatToDigits(30) == NatToDigits(3) + [DigitChar(0)] == "30";
    assert IntToString(0) == "0";
    assert ClockOf(30.0 / 60.0) == ClockTime(0, 30);
  }

  // ---------------------------------------------------------------- one leg

  /** The phase of node i of n: climb from the first node, descend from the last, cruise in
      between (NavigationServiceImpl.java, line 350). */
  function PhaseOfFlight(i: nat, n: nat): string {
    if i == 0 then "CLB" else if i == n - 1 then "DES" else "CRZ"
  }

  /** computeFuelBurnForLeg: the phase's burn per minute (gallons per hour over 60) times the
      leg time in minutes; the phase is matched after upper-casing, any other phase is
      rejected. */
  function FuelBurnForLeg(aircraft: Aircraft, distance: real, time: real, legType: string): (r: Result<real>)
    ensures r.Err? ==> r.error == InvalidLegType(legType)
  {
    var phase := AsciiUpper(legType);
    if phase == "CLB" then Ok(Burn(aircraft.clbFuelBurn, time))
    else if phase == "CRZ" then Ok(Burn(aircraft.crzFuelBurn, time))
    else if phase == "DES" then Ok(Burn(aircraft.descFuelBurn, time))
    else Err(InvalidLegType(legType))
  }

  /** `(gallonsPerHour / 60) * minutes`: the fuel burnt at a rate over a time in minutes. */
  function Burn(gallonsPerHour: real, minutes: real): real {
    gallonsPerHour / 60.0 * minutes
  }

  /** The burn is the hourly rate times the time taken as hours, and no negative rate burns
      negative fuel over a time that is not negative. */
  lemma {:induction false} BurnIsRateTimesHours(gallonsPerHour: real, minutes: real)
    ensures Burn(gallonsPerHour, minutes) == gallonsPerHour * (minutes / 60.0)
    ensures 0.0 <= gallonsPerHour && 0.0 <= minutes ==> 0.0 <= Burn(gallonsPerHour, minutes)
  {
    if 0.0 <= gallonsPerHour && 0.0 <= minutes {
      assert 0.0 <= gallonsPerHour / 60.0;
    }
  }

  /** The burn rate, in gallons per hour, that applies to node i of n. */
  function HourlyBurn(aircraft: Aircraft, i: nat, n: nat): real {
    if i == 0 then aircraft.clbFuelBurn
    else if i == n - 1 then aircraft.descFuelBurn
    else aircraft.crzFuelBurn
  }

  /** Along a route the phase is always one computeFuelBurnForLeg knows, so it never throws,
      and the leg burns its phase's hourly rate for the leg time taken as hours. */
  lemma {:induction false} FuelBurnAlongRoute(aircraft: Aircraft, distance: real, time: real, i: nat, n: nat)
    requires i < n
    ensures FuelBurnForLeg(aircraft, distance, time, PhaseOfFlight(i, n)) == Ok(Burn(HourlyBurn(aircraft, i, n), time))
  {
    if i == 0 {
      assert AsciiUpper("CLB") == "CLB";
    } else if i == n - 1 {
      assert AsciiUpper("DES") == "DES";
      assert "DES"[0] != "CLB"[0] && "DES"[0] != "CRZ"[0];
    } else {
      assert AsciiUpper("CRZ") == "CRZ";
      assert "CRZ"[1] != "CLB"[1];
    }
  }

  /** computeTimeForLeg: the distance over the ground speed in nautical miles per minute, so the
      leg time is in minutes. Java divides a zero ground speed into an infinite or NaN time;
      here that time is absent. */
  function TimeForLeg(groundspeed: real, distance: real): (t: Option<real>)
    ensures t.Some? <==> groundspeed != 0.0
  {
    if groundspeed == 0.0 then None else Some(distance / (groundspeed / 60.0))
  }

  /** Flying the leg time at the ground speed, taken per minute, covers the leg's distance. */
  lemma {:induction false} TimeForLegCoversDistance(groundspeed: real, distance: real)
    requires groundspeed != 0.0
    ensures TimeForLeg(groundspeed, distance).value * (groundspeed / 60.0) == distance
  {
  }

  /** getAircraftFromDB. */
  function AircraftFromDb(env: Env, model: string): Result<Aircraft> {
    if model in env.aircraftDb then Ok(env.aircraftDb[model]) else Err(AircraftNotFound(model))
  }

  /** What one pass of computeNavlog's loop works out for a node. */
  datatype LegOutcome = LegOutcome(trueCourse: int, groundSpeed: real, distance: real, time: real, fuel: real)

  /** What every pass shares: the repositories, the aircraft model, the TAS text and the
      average wind text. */
  datatype NavContext = NavContext(env: Env, aircraft: string, tas: string, winds: string)

  /** The corrected course and the ground speed a pass reads back from the reply. */
  datatype Reading = Reading(trueCourse: int, groundSpeed: real)

  /** The first half of a pass: the bearing cast to a whole-degree course, the TAS parsed, the
      reply of ComputeTrueCourseAndGroundsped asked for, and its ground speed (field 1, by
      parseDouble) and course (field 0, by parseInt) read back. The source asks for the reply
      twice with the same arguments; it is the same both times, so it is computed once here. */
  function ReadCorrection(ctx: NavContext, leg: Leg): Result<Reading> {
    var course := TruncToInt(leg.bearing);
    var tas :- ParseInt(ctx.tas);
    var reply :- ComputeTrueCourseAndGroundsped(ctx.env.trig, course, ctx.winds, tas);
    var groundspeed :- DecodeGroundSpeed(ctx.env.parseDouble, reply);
    var truecourse :- DecodeCourse(reply);
    Ok(Reading(truecourse, groundspeed))
  }

  /** The second half of a pass, from what the first half read: the leg time, the aircraft
      looked up, and the fuel burnt in the node's phase. */
  function LegFromReading(env: Env, aircraftModel: string, leg: Leg, phaseOfFlight: string, reading: Result<Reading>): Result<LegOutcome> {
    var r :- reading;
    var timeForLeg := TimeForLeg(r.groundSpeed, leg.distance);
    var aircraft :- AircraftFromDb(env, aircraftModel);
    if timeForLeg.None? then Err(NonFiniteLegTime)
    else
      var legFuelBurn :- FuelBurnForLeg(aircraft, leg.distance, timeForLeg.value, phaseOfFlight);
      Ok(LegOutcome(r.trueCourse, r.groundSpeed, leg.distance, timeForLeg.value, legFuelBurn))
  }

  /** One pass of the loop, apart from updating the node and the totals. */
  function LegStep(ctx: NavContext, leg: Leg, phaseOfFlight: string): Result<LegOutcome> {
    LegFromReading(ctx.env, ctx.aircraft, leg, phaseOfFlight, ReadCorrection(ctx, leg))
  }

  /** A pass of the loop as a function value, so that the loop can be reasoned about for any
      pass. */
  function Steps(ctx: NavContext): (Leg, string) -> Result<LegOutcome> {
    (leg, phaseOfFlight) => LegStep(ctx, leg, phaseOfFlight)
  }

  /** Once the wind text and the TAS text have been read, the reply is read back as the
      corrected course, a compass direction, and the rounded ground speed; a negative rounded
      ground speed leaves field 1 empty, which parseDouble rejects. */
  lemma {:induction false} ReadCorrectionOutcome(ctx: NavContext, leg: Leg, tas: int, windHeading: int, windSpeed: int)
    requires ValidTrig(ctx.env.trig) && ParsesDecimals(ctx.env.parseDouble)
    requires 0.0 <= leg.bearing < 360.0
    requires ParseInt(ctx.tas) == Ok(tas) && ParseWinds(ctx.winds) == Ok((windHeading, windSpeed))
    ensures var c := Correct(ctx.env.trig, TruncToInt(leg.bearing), windHeading, windSpeed, tas);
      0 <= c.course < 360 &&
      (c.groundSpeed < 0 ==> ReadCorrection(ctx, leg) == Err(NumberFormat(""))) &&
      (0 <= c.groundSpeed ==> ReadCorrection(ctx, leg) == Ok(Reading(c.course, c.groundSpeed as real)))
  {
    var course := TruncToInt(leg.bearing);
    var c := Correct(ctx.env.trig, course, windHeading, windSpeed, tas);
    CorrectInRange(ctx.env.trig, course, windHeading, windSpeed, tas);
    DecodeEncodedCorrection(ctx.env.parseDouble, c);
    assert ComputeTrueCourseAndGroundsped(ctx.env.trig, course, ctx.winds, tas) == Ok(EncodeCorrection(c));
  }

  /** What the second half of a pass yields from a reading: an unknown aircraft is an error, a
      zero ground speed gives no finite time, and otherwise the node gets the read course, a
      leg time that covers the leg at the ground speed, and the phase's hourly burn for that
      time. */
  lemma {:induction false} LegFromReadingOutcome(env: Env, aircraftModel: string, leg: Leg, i: nat, n: nat, r: Reading)
    requires i < n
    ensures aircraftModel !in env.aircraftDb ==>
      LegFromReading(env, aircraftModel, leg, PhaseOfFlight(i, n), Ok(r)) == Err(AircraftNotFound(aircraftModel))
    ensures aircraftModel in env.aircraftDb && r.groundSpeed == 0.0 ==>
      LegFromReading(env, aircraftModel, leg, PhaseOfFlight(i, n), Ok(r)) == Err(NonFiniteLegTime)
    ensures aircraftModel in env.aircraftDb && r.groundSpeed != 0.0 ==>
      TimeForLeg(r.groundSpeed, leg.distance).value * (r.groundSpeed / 60.0) == leg.distance &&
      LegFromReading(env, aircraftModel, leg, PhaseOfFlight(i, n), Ok(r)) ==
        Ok(LegOutcome(r.trueCourse, r.groundSpeed, leg.distance, TimeForLeg(r.groundSpeed, leg.distance).value,
                      Burn(HourlyBurn(env.aircraftDb[aircraftModel], i, n), TimeForLeg(r.groundSpeed, leg.distance).value)))
  {
    if aircraftModel in env.aircraftDb && r.groundSpeed != 0.0 {
      TimeForLegCoversDistance(r.groundSpeed, leg.distance);
      FuelBurnAlongRoute(env.aircraftDb[aircraftModel], leg.distance, TimeForLeg(r.groundSpeed, leg.distance).value, i, n);
      assert AircraftFromDb(env, aircraftModel) == Ok(env.aircraftDb[aircraftModel]);
    } else if aircraftModel in env.aircraftDb {
      assert TimeForLeg(r.groundSpeed, leg.distance).None?;
    } else {
      assert AircraftFromDb(env, aircraftModel) == Err(AircraftNotFound(aircraftModel));
    }
  }

  /** A whole pass once the wind text and the TAS text have been read: a negative rounded
      ground speed makes the reply undecodable; otherwise the pass goes on from the corrected
      course, a compass direction, and the rounded ground speed, as LegFromReadingOutcome
      describes. */
  lemma {:induction false} LegStepOutcome(ctx: NavContext, leg: Leg, i: nat, n: nat, tas: int, windHeading: int, windSpeed: int)
    requires ValidTrig(ctx.env.trig) && ParsesDecimals(ctx.env.parseDouble)
    requires 0.0 <= leg.bearing < 360.0 && i < n
    requires ParseInt(ctx.tas) == Ok(tas) && ParseWinds(ctx.winds) == Ok((windHeading, windSpeed))
    ensures var c := Correct(ctx.env.trig, TruncToInt(leg.bearing), windHeading, windSpeed, tas);
      (c.groundSpeed < 0 ==> LegStep(ctx, leg, PhaseOfFlight(i, n)) == Err(NumberFormat(""))) &&
      (0 <= c.groundSpeed ==>
        0 <= c.course < 360 &&
        LegStep(ctx, leg, PhaseOfFlight(i, n)) ==
          LegFromReading(ctx.env, ctx.aircraft, leg, PhaseOfFlight(i, n), Ok(Reading(c.course, c.groundSpeed as real))))
  {
    var reading := ReadCorrection(ctx, leg);
    var phase := PhaseOfFlight(i, n);
    assert LegStep(ctx, leg, phase) == LegFromReading(ctx.env, ctx.aircraft, leg, phase, reading);
    ReadCorrectionOutcome(ctx, leg, tas, windHeading, windSpeed);
  }

  /** A pass over a node with distance 0 adds no time and no fuel, whatever it read. */
  lemma {:induction false} LegFromReadingOfZeroDistance(env: Env, aircraftModel: string, leg: Leg, phaseOfFlight: string, reading: Result<Reading>)
    requires leg.distance == 0.0 && LegFromReading(env, aircraftModel, leg, phaseOfFlight, reading).Ok?
    ensures var out := LegFromReading(env, aircraftModel, leg, phaseOfFlight, reading).value;
      out.distance == 0.0 && out.time == 0.0 && out.fuel == 0.0
  {
    var r := reading.value;
    assert TimeForLeg(r.groundSpeed, 0.0).value == 0.0;
  }

  /** A pass over a node with distance 0 adds no time and no fuel. */
  lemma {:induction false} LegStepOfZeroDistance(ctx: NavContext, leg: Leg, phaseOfFlight: string)
    requires leg.distance == 0.0 && LegStep(ctx, leg, phaseOfFlight).Ok?
    ensures var out := LegStep(ctx, leg, phaseOfFlight).value;
      out.distance == 0.0 && out.time == 0.0 && out.fuel == 0.0
  {
    var reading := ReadCorrection(ctx, leg);
    assert LegStep(ctx, leg, phaseOfFlight) == LegFromReading(ctx.env, ctx.aircraft, leg, phaseOfFlight, reading);
    LegFromReadingOfZeroDistance(ctx.env, ctx.aircraft, leg, phaseOfFlight, reading);
  }

  // ---------------------------------------------------------------- the loop as a value

  /** The outcomes of the first k passes, or the first failure among them. */
  function StepsUpTo(step: (Leg, string) -> Result<LegOutcome>, legs: seq<Leg>, k: nat): (r: Result<seq<LegOutcome>>)
    requires k <= |legs|
    ensures r.Ok? ==> |r.value| == k
  {
    if k == 0 then Ok([])
    else
      var prev :- StepsUpTo(step, legs, k - 1);
      var out :- step(legs[k - 1], PhaseOfFlight(k - 1, |legs|));
      Ok(prev + [out])
  }

  /** The first k passes succeed exactly when each one does, and outcome j is what pass j
      yields for node j in its phase. */
  lemma {:induction false} StepsUpToAll(step: (Leg, string) -> Result<LegOutcome>, legs: seq<Leg>, k: nat)
    requires k <= |legs|
    ensures StepsUpTo(step, legs, k).Ok? <==>
      forall j :: 0 <= j < k ==> step(legs[j], PhaseOfFlight(j, |legs|)).Ok?
    ensures StepsUpTo(step, legs, k).Ok? ==>
      forall j :: 0 <= j < k ==> step(legs[j], PhaseOfFlight(j, |legs|)) == Ok(StepsUpTo(step, legs, k).value[j])
  {
    if k > 0 {
      StepsUpToAll(step, legs, k - 1);
    }
  }

  /** Once a pass fails, every longer run of passes fails with the same error. */
  lemma {:induction false} StepsFailureSticks(step: (Leg, string) -> Result<LegOutcome>, legs: seq<Leg>, k: nat, m: nat)
    requires k <= m <= |legs|
    requires StepsUpTo(step, legs, k).Err?
    ensures StepsUpTo(step, legs, m) == StepsUpTo(step, legs, k)
  {
    if m > k {
      StepsFailureSticks(step, legs, k, m - 1);
    }
  }

  /** When the first i passes succeed and pass i fails, the whole loop fails with its error. */
  lemma {:induction false} StepsFailAt(step: (Leg, string) -> Result<LegOutcome>, legs: seq<Leg>, i: nat)
    requires i < |legs|
    requires StepsUpTo(step, legs, i).Ok? && step(legs[i], PhaseOfFlight(i, |legs|)).Err?
    ensures StepsUpTo(step, legs, |legs|) == Err(step(legs[i], PhaseOfFlight(i, |legs|)).error)
  {
    StepsFailureSticks(step, legs, i + 1, |legs|);
  }

  // ---------------------------------------------------------------- totals

  /** totalFuelBurn starts from this allowance, in gallons, before any leg is flown. */
  const InitialFuelBurn: real := 1.5

  function FuelSum(outs: seq<LegOutcome>): real {
    if |outs| == 0 then 0.0 else FuelSum(outs[..|outs| - 1]) + outs[|outs| - 1].fuel
  }

  function TimeSum(outs: seq<LegOutcome>): real {
    if |outs| == 0 then 0.0 else TimeSum(outs[..|outs| - 1]) + outs[|outs| - 1].time
  }

  function DistanceSum(outs: seq<LegOutcome>): real {
    if |outs| == 0 then 0.0 else DistanceSum(outs[..|outs| - 1]) + outs[|outs| - 1].distance
  }

  /** runningTotalFuelBurn: after every leg, the fuel total so far. */
  function RunningFuel(outs: seq<LegOutcome>): (r: seq<real>)
    ensures |r| == |outs|
  {
    if |outs| == 0 then [] else RunningFuel(outs[..|outs| - 1]) + [InitialFuelBurn + FuelSum(outs)]
  }

  /** runningTotalETE: after every leg, the time so far, formatted. */
  function RunningEte(outs: seq<LegOutcome>): (r: seq<string>)
    ensures |r| == |outs|
  {
    if |outs| == 0 then [] else RunningEte(outs[..|outs| - 1]) + [FormatEte(TimeSum(outs))]
  }

  /** Running fuel entry j is the allowance plus the burn of legs 0 to j. */
  lemma {:induction false} RunningFuelAt(outs: seq<LegOutcome>, j: nat)
    requires j < |outs|
    ensures RunningFuel(outs)[j] == InitialFuelBurn + FuelSum(outs[..j + 1])
  {
    var last := |outs| - 1;
    if j == last {
      assert outs[..j + 1] == outs;
    } else {
      var front := outs[..last];
      RunningFuelAt(front, j);
      assert front[..j + 1] == outs[..j + 1];
    }
  }

  /** Running ETE entry j is the time of legs 0 to j, formatted. */
  lemma {:induction false} RunningEteAt(outs: seq<LegOutcome>, j: nat)
    requires j < |outs|
    ensures RunningEte(outs)[j] == FormatEte(TimeSum(outs[..j + 1]))
  {
    var last := |outs| - 1;
    if j == last {
      assert outs[..j + 1] == outs;
    } else {
      var front := outs[..last];
      RunningEteAt(front, j);
      assert front[..j + 1] == outs[..j + 1];
    }
  }

  /** The loop's variables when it ends: the three totals and the two running lists. */
  datatype Totals = Totals(fuelBurn: real, ete: real, distance: real, runningFuelBurn: seq<real>, runningEte: seq<string>)

  function TotalsOf(outs: seq<LegOutcome>): Totals {
    Totals(InitialFuelBurn + FuelSum(outs), TimeSum(outs), DistanceSum(outs), RunningFuel(outs), RunningEte(outs))
  }

  /** The route after the loop: every node keeps its label and distance and carries its
      corrected course as its bearing. */
  function CorrectedRoute(legs: seq<Leg>, outs: seq<LegOutcome>): seq<Leg>
    requires |outs| == |legs|
  {
    seq(|legs|, j requires 0 <= j < |legs| => legs[j].(bearing := outs[j].trueCourse as real))
  }

  /** With no negative burn, a longer prefix of the legs burns at least as much fuel. */
  lemma {:induction false} FuelSumPrefixes(outs: seq<LegOutcome>, j: nat, k: nat)
    requires j <= k <= |outs|
    requires forall l :: 0 <= l < |outs| ==> 0.0 <= outs[l].fuel
    ensures 0.0 <= FuelSum(outs[..j]) <= FuelSum(outs[..k])
  {
    if k > j {
      var p := outs[..k];
      assert p[..k - 1] == outs[..k - 1];
      FuelSumPrefixes(outs, j, k - 1);
    } else if j > 0 {
      var p := outs[..j];
      assert p[..j - 1] == outs[..j - 1];
      FuelSumPrefixes(outs, j - 1, j - 1);
    }
  }

  /** With no negative burn the running fuel entries never decrease, never fall below the
      allowance and never exceed the fuel total. */
  lemma {:induction false} RunningFuelNonDecreasing(outs: seq<LegOutcome>)
    requires forall l :: 0 <= l < |outs| ==> 0.0 <= outs[l].fuel
    ensures forall j, k :: 0 <= j <= k < |outs| ==>
      InitialFuelBurn <= RunningFuel(outs)[j] <= RunningFuel(outs)[k]
    ensures forall j :: 0 <= j < |outs| ==> RunningFuel(outs)[j] <= InitialFuelBurn + FuelSum(outs)
  {
    forall j, k | 0 <= j <= k < |outs|
      ensures InitialFuelBurn <= RunningFuel(outs)[j] <= RunningFuel(outs)[k]
    {
      RunningFuelAt(outs, j);
      RunningFuelAt(outs, k);
      FuelSumPrefixes(outs, j + 1, k + 1);
    }
    forall j | 0 <= j < |outs|
      ensures RunningFuel(outs)[j] <= InitialFuelBurn + FuelSum(outs)
    {
      RunningFuelAt(outs, j);
      FuelSumPrefixes(outs, j + 1, |outs|);
      assert outs[..|outs|] == outs;
    }
  }

  // ---------------------------------------------------------------- the navlog

  /** What computeNavlog reports: the distance and fuel totals cut to hundredths, the total
      ETE, the running ETE and fuel lists without their last entries, and the corrected
      route. */
  datatype NavlogReport = NavlogReport(
    distance: real,
    totalEte: string,
    totalFuelBurn: real,
    runningEte: seq<string>,
    runningFuelBurn: seq<real>,
    route: seq<Leg>)

  /** The report made from the resolved route and the outcome of every pass. */
  function Report(legs: seq<Leg>, outs: seq<LegOutcome>): NavlogReport
    requires 1 <= |legs| == |outs|
  {
    var n := |legs|;
    NavlogReport(
      Truncate(DistanceSum(outs)),
      FormatEte(TimeSum(outs)),
      Truncate(InitialFuelBurn + FuelSum(outs)),
      RunningEte(outs)[..n - 1],
      RunningFuel(outs)[..n - 1],
      CorrectedRoute(legs, outs))
  }

  /** When the last pass adds no time and no fuel, the reported totals are the last running
      entries kept (the fuel once cut to hundredths). */
  lemma {:induction false} ReportTotalsMatchLastEntry(legs: seq<Leg>, outs: seq<LegOutcome>, report: NavlogReport)
    requires 2 <= |legs| == |outs| && report == Report(legs, outs)
    requires outs[|outs| - 1].time == 0.0 && outs[|outs| - 1].fuel == 0.0
    ensures |report.runningFuelBurn| == |report.runningEte| == |report.route| - 1
    ensures report.totalFuelBurn == Truncate(report.runningFuelBurn[|report.route| - 2])
    ensures report.totalEte == report.runningEte[|report.route| - 2]
  {
    var n := |legs|;
    LastEntriesAreTotals(outs);
    assert report.runningFuelBurn[n - 2] == RunningFuel(outs)[n - 2];
    assert report.runningEte[n - 2] == RunningEte(outs)[n - 2];
  }

  /** When the last leg adds no time and no fuel, the next-to-last running entries are already
      the totals. */
  lemma {:induction false} LastEntriesAreTotals(outs: seq<LegOutcome>)
    requires 2 <= |outs| && outs[|outs| - 1].time == 0.0 && outs[|outs| - 1].fuel == 0.0
    ensures RunningFuel(outs)[|outs| - 2] == InitialFuelBurn + FuelSum(outs)
    ensures RunningEte(outs)[|outs| - 2] == FormatEte(TimeSum(outs))
  {
    var n := |outs|;
    var front := outs[..n - 1];
    assert FuelSum(outs) == FuelSum(front) && TimeSum(outs) == TimeSum(front);
    RunningFuelAt(outs, n - 2);
    RunningEteAt(outs, n - 2);
    assert outs[..n - 2 + 1] == front;
  }

  /** With no negative burn the reported running fuel entries never decrease, never fall below
      the allowance, and cut to hundredths none exceeds the reported total. */
  lemma {:induction false} ReportFuelNonDecreasing(legs: seq<Leg>, outs: seq<LegOutcome>)
    requires 1 <= |legs| == |outs|
    requires forall l :: 0 <= l < |outs| ==> 0.0 <= outs[l].fuel
    ensures var fuel := Report(legs, outs).runningFuelBurn;
      forall j, k :: 0 <= j <= k < |fuel| ==> InitialFuelBurn <= fuel[j] <= fuel[k]
    ensures var r := Report(legs, outs);
      forall j :: 0 <= j < |r.runningFuelBurn| ==> Truncate(r.runningFuelBurn[j]) <= r.totalFuelBurn
  {
    RunningFuelNonDecreasing(outs);
    var r := Report(legs, outs);
    forall j | 0 <= j < |r.runningFuelBurn|
      ensures Truncate(r.runningFuelBurn[j]) <= r.totalFuelBurn
    {
      TruncateMonotone(RunningFuel(outs)[j], InitialFuelBurn + FuelSum(outs));
    }
  }

  lemma {:induction false} TruncateMonotone(x: real, y: real)
    requires x <= y
    ensures Truncate(x) <= Truncate(y)
  {
    assert (x * 100.0).Floor <= (y * 100.0).Floor;
  }

  /** `avgDirection + "@" + avgSpeed`: the rounded means of the winds at the first and the last
      node. */
  function RouteWinds(env: Env, origin: string, destination: string, altitude: int): string {
    var originWinds := GetWindsAloft(env, origin, altitude);
    var destinationWinds := GetWindsAloft(env, destination, altitude);
    EncodeWinds(RoundedMean(originWinds.direction, destinationWinds.direction),
                RoundedMean(originWinds.speed, destinationWinds.speed))
  }

  /** The context every pass of a navlog shares. */
  function RouteContext(env: Env, legs: seq<Leg>, aircraft: string, altitude: int, tas: string): NavContext
    requires |legs| >= 1
  {
    NavContext(env, aircraft, tas, RouteWinds(env, legs[0].nodeName, legs[|legs| - 1].nodeName, altitude))
  }

  /** computeNavlog as a value (NavigationServiceImpl.java, lines 309-390). */
  function Navlog(env: Env, route: string, aircraft: string, cruiseAlt: string, tas: string): Result<NavlogReport> {
    var legs :- ResolveRoute(env, route);
    var altitude :- ParseInt(cruiseAlt);
    NavlogOfRoute(env, legs, aircraft, altitude, tas)
  }

  /** computeNavlog once the route is resolved and the altitude read: every pass over the
      route's nodes, and the report of their outcomes. */
  function NavlogOfRoute(env: Env, legs: seq<Leg>, aircraft: string, altitude: int, tas: string): Result<NavlogReport>
    requires |legs| >= 1
  {
    var outs :- StepsUpTo(Steps(RouteContext(env, legs, aircraft, altitude, tas)), legs, |legs|);
    Ok(Report(legs, outs))
  }

  /** One more pass that succeeds extends the outcomes by its own. */
  lemma {:induction false} StepsUpToNext(step: (Leg, string) -> Result<LegOutcome>, legs: seq<Leg>, i: nat, outs: seq<LegOutcome>, out: LegOutcome)
    requires i < |legs| && StepsUpTo(step, legs, i) == Ok(outs)
    requires step(legs[i], PhaseOfFlight(i, |legs|)) == Ok(out)
    ensures StepsUpTo(step, legs, i + 1) == Ok(outs + [out])
  {
  }

  /** One more leg adds its fuel, time and distance to the totals and one entry, the new
      total, to each running list. */
  lemma {:induction false} AccumulateLeg(outs: seq<LegOutcome>, out: LegOutcome, fuelBurn: real, ete: real, distance: real)
    requires fuelBurn == InitialFuelBurn + FuelSum(outs) + out.fuel
    requires ete == TimeSum(outs) + out.time
    requires distance == DistanceSum(outs) + out.distance
    ensures InitialFuelBurn + FuelSum(outs + [out]) == fuelBurn
    ensures TimeSum(outs + [out]) == ete
    ensures DistanceSum(outs + [out]) == distance
    ensures RunningFuel(outs + [out]) == RunningFuel(outs) + [fuelBurn]
    ensures RunningEte(outs + [out]) == RunningEte(outs) + [FormatEte(ete)]
  {
    assert (outs + [out])[..|outs|] == outs;
  }

  /** The route part-way through the loop: the nodes already flown carry their corrected
      course, the others are as resolved. */
  function PartlyCorrected(legs: seq<Leg>, outs: seq<LegOutcome>): (route: seq<Leg>)
    requires |outs| <= |legs|
    ensures |route| == |legs|
  {
    CorrectedRoute(legs[..|outs|], outs) + legs[|outs|..]
  }

  /** Before the loop nothing is corrected, the next node to fly is still as resolved, and
      correcting it moves the boundary one node on. */
  lemma {:induction false} PartlyCorrectedNext(legs: seq<Leg>, outs: seq<LegOutcome>, out: LegOutcome)
    requires |outs| < |legs|
    ensures PartlyCorrected(legs, []) == legs
    ensures PartlyCorrected(legs, outs)[|outs|] == legs[|outs|]
    ensures PartlyCorrected(legs, outs)[|outs| := legs[|outs|].(bearing := out.trueCourse as real)] ==
      PartlyCorrected(legs, outs + [out])
  {
    var i := |outs|;
    assert legs[..0] == [] && legs[0..] == legs;
    var before := PartlyCorrected(legs, outs)[i := legs[i].(bearing := out.trueCourse as real)];
    var after := PartlyCorrected(legs, outs + [out]);
    forall j | 0 <= j < |legs| ensures before[j] == after[j] {
      if j < i {
        assert before[j] == CorrectedRoute(legs[..i], outs)[j];
        assert after[j] == CorrectedRoute(legs[..i + 1], outs + [out])[j];
      } else if j > i {
        assert before[j] == legs[i..][j - i];
        assert after[j] == legs[i + 1..][j - i - 1];
      }
    }
  }

  /** After the last node the whole route is corrected. */
  lemma {:induction false} PartlyCorrectedAll(legs: seq<Leg>, outs: seq<LegOutcome>)
    requires |outs| == |legs|
    ensures PartlyCorrected(legs, outs) == CorrectedRoute(legs, outs)
  {
    assert legs[..|outs|] == legs && legs[|outs|..] == [];
  }

  /** `curr.setBearing(course)` on node i of the route: that node takes the new bearing and no
      other node of the route changes. */
  method SetNodeBearing(nodes: seq<RouteNode>, i: nat, bearing: real)
    requires i < |nodes| && Distinct(nodes)
    modifies nodes[i]
    ensures Snapshot(nodes) == old(Snapshot(nodes))[i := old(Snapshot(nodes))[i].(bearing := bearing)]
  {
    nodes[i].SetBearing(bearing);
    assert forall j :: 0 <= j < |nodes| && j != i ==> nodes[j].Value() == old(nodes[j].Value());
  }

  /** The node part of one pass of computeNavlog's loop: work out the pass for node i and, when
      it succeeds, overwrite the node's bearing with the corrected course. */
  method FlyNode(flightroute: seq<RouteNode>, step: (Leg, string) -> Result<LegOutcome>, i: nat,
                 ghost legs: seq<Leg>, ghost outs: seq<LegOutcome>)
    returns (outcome: Result<LegOutcome>)
    requires Distinct(flightroute) && i == |outs| < |flightroute| == |legs|
    requires Snapshot(flightroute) == PartlyCorrected(legs, outs)
    modifies flightroute
    ensures outcome == step(legs[i], PhaseOfFlight(i, |legs|))
    ensures outcome.Ok? ==> Snapshot(flightroute) == PartlyCorrected(legs, outs + [outcome.value])
  {
    var curr := flightroute[i];
    PartlyCorrectedNext(legs, outs, LegOutcome(0, 0.0, 0.0, 0.0, 0.0));
    assert curr.Value() == legs[i];
    outcome := step(curr.Value(), PhaseOfFlight(i, |flightroute|));
    if outcome.Ok? {
      PartlyCorrectedNext(legs, outs, outcome.value);
      SetNodeBearing(flightroute, i, outcome.value.trueCourse as real);
    }
  }

  /** The loop of computeNavlog: for each node, work out the pass, overwrite the node's bearing
      with the corrected course and add the leg to the totals and the running lists. */
  method FlyRoute(flightroute: seq<RouteNode>, step: (Leg, string) -> Result<LegOutcome>) returns (r: Result<Totals>)
    requires Distinct(flightroute)
    modifies flightroute
    ensures var steps := StepsUpTo(step, old(Snapshot(flightroute)), |flightroute|);
      (steps.Err? ==> r == Err(steps.error)) &&
      (steps.Ok? ==> r == Ok(TotalsOf(steps.value)) &&
                     Snapshot(flightroute) == CorrectedRoute(old(Snapshot(flightroute)), steps.value))
  {
    ghost var legs := Snapshot(flightroute);
    var n := |flightroute|;
    var totalFuelBurn := InitialFuelBurn;
    var totalEte := 0.0;
    var totalDistance := 0.0;
    var runningTotalFuelBurn: seq<real> := [];
    var runningTotalEte: seq<string> := [];
    ghost var outs: seq<LegOutcome> := [];
    var i := 0;
    if n > 0 {
      PartlyCorrectedNext(legs, outs, LegOutcome(0, 0.0, 0.0, 0.0, 0.0));
    }
    while i < n
      invariant 0 <= i <= n && |outs| == i
      invariant StepsUpTo(step, legs, i) == Ok(outs)
      invariant totalFuelBurn == InitialFuelBurn + FuelSum(outs)
      invariant totalEte == TimeSum(outs)
      invariant totalDistance == DistanceSum(outs)
      invariant runningTotalFuelBurn == RunningFuel(outs)
      invariant runningTotalEte == RunningEte(outs)
      invariant Snapshot(flightroute) == PartlyCorrected(legs, outs)
    {
      var outcome := FlyNode(flightroute, step, i, legs, outs);
      if outcome.Err? {
        StepsFailAt(step, legs, i);
        return Err(outcome.error);
      }
      var legOut := outcome.value;
      totalEte := totalEte + legOut.time;
      totalFuelBurn := totalFuelBurn + legOut.fuel;
      totalDistance := totalDistance + legOut.distance;
      runningTotalFuelBurn := runningTotalFuelBurn + [totalFuelBurn];
      runningTotalEte := runningTotalEte + [FormatEte(totalEte)];
      StepsUpToNext(step, legs, i, outs, legOut);
      AccumulateLeg(outs, legOut, totalFuelBurn, totalEte, totalDistance);
      outs := outs + [legOut];
      i := i + 1;
    }
    PartlyCorrectedAll(legs, outs);
    return Ok(Totals(totalFuelBurn, totalEte, totalDistance, runningTotalFuelBurn, runningTotalEte));
  }

  /** computeNavlog: resolve the route, read the altitude, then fly the route's nodes; the
      result is exactly `Navlog`. */
  method ComputeNavlog(env: Env, route: string, aircraft: string, cruiseAlt: string, tas: string)
    returns (r: Result<NavlogReport>)
    ensures r == Navlog(env, route, aircraft, cruiseAlt, tas)
  {
    var flightroute :- PrepareRouteObject(env, route);
    var altitude :- ParseInt(cruiseAlt);
    r := NavlogFromNodes(env, flightroute, aircraft, altitude, tas);
  }

  /** The rest of computeNavlog: average the winds at the route's two ends, fly every node and
      report the totals, the running lists without the last node's entry, and the corrected
      nodes. */
  method NavlogFromNodes(env: Env, flightroute: seq<RouteNode>, aircraft: string, altitude: int, tas: string)
    returns (r: Result<NavlogReport>)
    requires 1 <= |flightroute| && Distinct(flightroute)
    modifies flightroute
    ensures r == NavlogOfRoute(env, old(Snapshot(flightroute)), aircraft, altitude, tas)
  {
    ghost var legs := Snapshot(flightroute);
    var avgwinds := AverageWinds(env, flightroute[0], flightroute[|flightroute| - 1], altitude);
    assert flightroute[0].nodeName == legs[0].nodeName;
    assert flightroute[|flightroute| - 1].nodeName == legs[|legs| - 1].nodeName;
    RouteContextOfWinds(env, legs, aircraft, altitude, tas, avgwinds);
    NavlogOfRouteSteps(env, legs, aircraft, altitude, tas);
    var totals :- FlyRoute(flightroute, Steps(NavContext(env, aircraft, tas, avgwinds)));
    ghost var outs := StepsUpTo(Steps(NavContext(env, aircraft, tas, avgwinds)), legs, |legs|).value;
    var formattedEte := FormatEte(totals.ete);
    var n := |flightroute|;
    var runningTotalEte := totals.runningEte[..n - 1];
    var runningTotalFuelBurn := totals.runningFuelBurn[..n - 1];
    ReportOfTotals(legs, outs, totals, Snapshot(flightroute));
    return Ok(NavlogReport(Truncate(totals.distance), formattedEte, Truncate(totals.fuelBurn),
                           runningTotalEte, runningTotalFuelBurn, Snapshot(flightroute)));
  }

  /** The wind of computeNavlog: the winds aloft at the first and the last node, at the cruise
      altitude, averaged direction by direction and speed by speed, written `dir@speed`. */
  method AverageWinds(env: Env, origin: RouteNode, destination: RouteNode, altitude: int) returns (avgwinds: string)
    ensures avgwinds == RouteWinds(env, origin.nodeName, destination.nodeName, altitude)
  {
    var originWinds := GetWindsAloft(env, origin.nodeName, altitude);
    var destinationWinds := GetWindsAloft(env, destination.nodeName, altitude);
    var avgDirection := RoundedMean(originWinds.direction, destinationWinds.direction);
    var avgSpeed := RoundedMean(originWinds.speed, destinationWinds.speed);
    avgwinds := EncodeWinds(avgDirection, avgSpeed);
  }

  /** The wind every pass uses is the average of the winds aloft at the route's two ends. */
  lemma {:induction false} RouteContextOfWinds(env: Env, legs: seq<Leg>, aircraft: string, altitude: int, tas: string,
                                               avgwinds: string)
    requires |legs| >= 1
    requires avgwinds == RouteWinds(env, legs[0].nodeName, legs[|legs| - 1].nodeName, altitude)
    ensures NavContext(env, aircraft, tas, avgwinds) == RouteContext(env, legs, aircraft, altitude, tas)
  {
  }

  /** The navlog of a resolved route fails with the first pass that fails, or is the report of
      all passes. */
  lemma {:induction false} NavlogOfRouteSteps(env: Env, legs: seq<Leg>, aircraft: string, altitude: int, tas: string)
    requires |legs| >= 1
    ensures StepsUpTo(Steps(RouteContext(env, legs, aircraft, altitude, tas)), legs, |legs|).Err? ==>
      NavlogOfRoute(env, legs, aircraft, altitude, tas) ==
        Err(StepsUpTo(Steps(RouteContext(env, legs, aircraft, altitude, tas)), legs, |legs|).error)
    ensures StepsUpTo(Steps(RouteContext(env, legs, aircraft, altitude, tas)), legs, |legs|).Ok? ==>
      NavlogOfRoute(env, legs, aircraft, altitude, tas) ==
        Ok(Report(legs, StepsUpTo(Steps(RouteContext(env, legs, aircraft, altitude, tas)), legs, |legs|).value))
  {
  }

  /** What the loop accumulated, with the last running entries dropped, is the report. */
  lemma {:induction false} ReportOfTotals(legs: seq<Leg>, outs: seq<LegOutcome>, totals: Totals, route: seq<Leg>)
    requires 1 <= |legs| == |outs|
    requires totals == TotalsOf(outs) && route == CorrectedRoute(legs, outs)
    ensures |totals.runningEte| == |totals.runningFuelBurn| == |legs|
    ensures NavlogReport(Truncate(totals.distance), FormatEte(totals.ete), Truncate(totals.fuelBurn),
                         totals.runningEte[..|legs| - 1], totals.runningFuelBurn[..|legs| - 1], route) ==
      Report(legs, outs)
  {
  }

  // ---------------------------------------------------------------- properties of the navlog

  /** With the library's angle ranges, a pass that succeeds reads back a course in [0, 360). */
  lemma {:induction false} ReadCourseInRange(ctx: NavContext, leg: Leg)
    requires ValidTrig(ctx.env.trig) && 0.0 <= leg.bearing < 360.0
    requires ReadCorrection(ctx, leg).Ok?
    ensures 0 <= ReadCorrection(ctx, leg).value.trueCourse < 360
  {
    var course := TruncToInt(leg.bearing);
    var tas := ParseInt(ctx.tas).value;
    var wind := ParseWinds(ctx.winds).value;
    var c := Correct(ctx.env.trig, course, wind.0, wind.1, tas);
    CorrectInRange(ctx.env.trig, course, wind.0, wind.1, tas);
    DecodeCourseOfEncoded(c);
    var reply := EncodeCorrection(c);
    assert ComputeTrueCourseAndGroundsped(ctx.env.trig, course, ctx.winds, tas) == Ok(reply);
    var groundspeed := DecodeGroundSpeed(ctx.env.parseDouble, reply).value;
    assert ReadCorrection(ctx, leg) == Ok(Reading(c.course, groundspeed));
  }

  /** A pass that succeeds read its reply successfully, keeps the course and ground speed it
      read, and keeps the node's distance. */
  lemma {:induction false} LegFromReadingKeepsReading(env: Env, aircraftModel: string, leg: Leg, phaseOfFlight: string, reading: Result<Reading>)
    requires LegFromReading(env, aircraftModel, leg, phaseOfFlight, reading).Ok?
    ensures reading.Ok?
    ensures LegFromReading(env, aircraftModel, leg, phaseOfFlight, reading).value.trueCourse == reading.value.trueCourse
    ensures LegFromReading(env, aircraftModel, leg, phaseOfFlight, reading).value.groundSpeed == reading.value.groundSpeed
    ensures LegFromReading(env, aircraftModel, leg, phaseOfFlight, reading).value.distance == leg.distance
  {
  }

  /** With the library's angle ranges, a pass that succeeds gives a course in [0, 360). */
  lemma {:induction false} LegCourseInRange(ctx: NavContext, leg: Leg, phaseOfFlight: string)
    requires ValidTrig(ctx.env.trig) && 0.0 <= leg.bearing < 360.0
    requires LegStep(ctx, leg, phaseOfFlight).Ok?
    ensures 0 <= LegStep(ctx, leg, phaseOfFlight).value.trueCourse < 360
  {
    var reading := ReadCorrection(ctx, leg);
    assert LegStep(ctx, leg, phaseOfFlight) == LegFromReading(ctx.env, ctx.aircraft, leg, phaseOfFlight, reading);
    LegFromReadingKeepsReading(ctx.env, ctx.aircraft, leg, phaseOfFlight, reading);
    ReadCourseInRange(ctx, leg);
  }

  /** A pass that succeeds from a reading with a ground speed that is not negative, over a leg
      of no negative length, burns no negative fuel when the burn rates are not negative. */
  lemma {:induction false} LegFromReadingBurnNotNegative(env: Env, aircraftModel: string, leg: Leg, i: nat, n: nat, r: Reading)
    requires i < n && 0.0 <= leg.distance && 0.0 <= r.groundSpeed
    requires aircraftModel in env.aircraftDb
    requires var a := env.aircraftDb[aircraftModel];
      0.0 <= a.clbFuelBurn && 0.0 <= a.crzFuelBurn && 0.0 <= a.descFuelBurn
    requires LegFromReading(env, aircraftModel, leg, PhaseOfFlight(i, n), Ok(r)).Ok?
    ensures 0.0 <= LegFromReading(env, aircraftModel, leg, PhaseOfFlight(i, n), Ok(r)).value.fuel
  {
    LegFromReadingOutcome(env, aircraftModel, leg, i, n, r);
    var time := TimeForLeg(r.groundSpeed, leg.distance).value;
    assert 0.0 <= time;
    var rate := HourlyBurn(env.aircraftDb[aircraftModel], i, n);
    assert 0.0 <= rate;
    BurnIsRateTimesHours(rate, time);
  }

  /** A pass that succeeds burns no negative fuel when the burn rates are not negative. */
  lemma {:induction false} LegBurnNotNegative(ctx: NavContext, leg: Leg, i: nat, n: nat)
    requires ValidTrig(ctx.env.trig) && ParsesDecimals(ctx.env.parseDouble)
    requires 0.0 <= leg.bearing < 360.0 && 0.0 <= leg.distance && i < n
    requires ctx.aircraft in ctx.env.aircraftDb
    requires var a := ctx.env.aircraftDb[ctx.aircraft];
      0.0 <= a.clbFuelBurn && 0.0 <= a.crzFuelBurn && 0.0 <= a.descFuelBurn
    requires LegStep(ctx, leg, PhaseOfFlight(i, n)).Ok?
    ensures 0.0 <= LegStep(ctx, leg, PhaseOfFlight(i, n)).value.fuel
  {
    var reading := ReadCorrection(ctx, leg);
    var phase := PhaseOfFlight(i, n);
    assert LegStep(ctx, leg, phase) == LegFromReading(ctx.env, ctx.aircraft, leg, phase, reading);
    LegFromReadingKeepsReading(ctx.env, ctx.aircraft, leg, phase, reading);
    var tas := ParseInt(ctx.tas).value;
    var wind := ParseWinds(ctx.winds).value;
    ReadCorrectionOutcome(ctx, leg, tas, wind.0, wind.1);
    LegFromReadingBurnNotNegative(ctx.env, ctx.aircraft, leg, i, n, reading.value);
  }

  /** A navlog has one node per route node, each keeping its label and distance, and one
      running entry fewer than nodes in each list; with the library's angle ranges every
      bearing in it is a whole-degree compass direction. */
  lemma {:induction false} NavlogRoute(env: Env, route: string, aircraft: string, cruiseAlt: string, tas: string,
                                       report: NavlogReport)
    requires Navlog(env, route, aircraft, cruiseAlt, tas) == Ok(report)
    ensures ResolveRoute(env, route).Ok?
    ensures |report.route| == |ResolveRoute(env, route).value|
    ensures |report.runningEte| == |report.route| - 1 && |report.runningFuelBurn| == |report.route| - 1
    ensures forall j :: 0 <= j < |report.route| ==>
      report.route[j].nodeName == ResolveRoute(env, route).value[j].nodeName &&
      report.route[j].distance == ResolveRoute(env, route).value[j].distance
    ensures ValidTrig(env.trig) ==>
      forall j :: 0 <= j < |report.route| ==>
        0.0 <= report.route[j].bearing < 360.0 && report.route[j].bearing.Floor as real == report.route[j].bearing
  {
    var legs := ResolveRoute(env, route).value;
    var altitude := ParseInt(cruiseAlt).value;
    var ctx := RouteContext(env, legs, aircraft, altitude, tas);
    NavlogIsReport(env, route, aircraft, cruiseAlt, tas);
    var outs := StepsUpTo(Steps(ctx), legs, |legs|).value;
    if ValidTrig(env.trig) {
      ResolveRouteGeometry(env, route);
      StepsKeepCoursesInRange(ctx);
      StepsCoursesInRange(Steps(ctx), legs, outs);
    }
    ReportRoute(legs, outs, report);
  }

  /** The report's route is the resolved route with each bearing replaced by the corrected
      course, a whole number of degrees, and its running lists leave out the last node. */
  lemma {:induction false} ReportRoute(legs: seq<Leg>, outs: seq<LegOutcome>, report: NavlogReport)
    requires 1 <= |legs| == |outs| && report == Report(legs, outs)
    ensures |report.route| == |legs|
    ensures |report.runningEte| == |report.route| - 1 && |report.runningFuelBurn| == |report.route| - 1
    ensures forall j :: 0 <= j < |report.route| ==>
      report.route[j].nodeName == legs[j].nodeName && report.route[j].distance == legs[j].distance &&
      report.route[j].bearing == outs[j].trueCourse as real
    ensures (forall j :: 0 <= j < |outs| ==> 0 <= outs[j].trueCourse < 360) ==>
      forall j :: 0 <= j < |report.route| ==>
        0.0 <= report.route[j].bearing < 360.0 && report.route[j].bearing.Floor as real == report.route[j].bearing
  {
    forall j | 0 <= j < |report.route| ensures report.route[j].bearing.Floor == outs[j].trueCourse {
      assert report.route[j].bearing == outs[j].trueCourse as real;
    }
  }

  /** A pass over a compass bearing that succeeds reads back a course in [0, 360). */
  ghost predicate CoursesStayInRange(step: (Leg, string) -> Result<LegOutcome>) {
    forall leg: Leg, phaseOfFlight: string :: 0.0 <= leg.bearing < 360.0 && step(leg, phaseOfFlight).Ok? ==>
      0 <= step(leg, phaseOfFlight).value.trueCourse < 360
  }

  /** With the library's angle ranges, the passes of computeNavlog keep courses in range. */
  lemma {:induction false} StepsKeepCoursesInRange(ctx: NavContext)
    requires ValidTrig(ctx.env.trig)
    ensures CoursesStayInRange(Steps(ctx))
  {
    forall leg: Leg, phaseOfFlight: string | 0.0 <= leg.bearing < 360.0 && Steps(ctx)(leg, phaseOfFlight).Ok?
      ensures 0 <= Steps(ctx)(leg, phaseOfFlight).value.trueCourse < 360
    {
      LegCourseInRange(ctx, leg, phaseOfFlight);
    }
  }

  /** Over compass bearings, every outcome of passes that keep courses in range has its course
      in [0, 360). */
  lemma {:induction false} StepsCoursesInRange(step: (Leg, string) -> Result<LegOutcome>, legs: seq<Leg>, outs: seq<LegOutcome>)
    requires CoursesStayInRange(step)
    requires forall j :: 0 <= j < |legs| ==> 0.0 <= legs[j].bearing < 360.0
    requires StepsUpTo(step, legs, |legs|) == Ok(outs)
    ensures forall j :: 0 <= j < |outs| ==> 0 <= outs[j].trueCourse < 360
  {
    StepsUpToAll(step, legs, |legs|);
    forall j | 0 <= j < |legs| ensures 0 <= outs[j].trueCourse < 360 {
      assert step(legs[j], PhaseOfFlight(j, |legs|)) == Ok(outs[j]);
    }
  }

  /** A navlog that succeeds is the report of its resolved route and of the outcome of every
      pass. */
  lemma {:induction false} NavlogIsReport(env: Env, route: string, aircraft: string, cruiseAlt: string, tas: string)
    requires Navlog(env, route, aircraft, cruiseAlt, tas).Ok?
    ensures ResolveRoute(env, route).Ok? && ParseInt(cruiseAlt).Ok?
    ensures var legs := ResolveRoute(env, route).value;
      var ctx := RouteContext(env, legs, aircraft, ParseInt(cruiseAlt).value, tas);
      StepsUpTo(Steps(ctx), legs, |legs|).Ok? &&
      Navlog(env, route, aircraft, cruiseAlt, tas) == Ok(Report(legs, StepsUpTo(Steps(ctx), legs, |legs|).value))
  {
  }

  /** When the last node has distance 0, the last pass adds no time and no fuel. */
  lemma {:induction false} LastStepAddsNothing(step: (Leg, string) -> Result<LegOutcome>, legs: seq<Leg>, outs: seq<LegOutcome>)
    requires ZeroDistanceIsFree(step)
    requires 1 <= |legs| && legs[|legs| - 1].distance == 0.0
    requires StepsUpTo(step, legs, |legs|) == Ok(outs)
    ensures outs[|legs| - 1].time == 0.0 && outs[|legs| - 1].fuel == 0.0
  {
    var n := |legs|;
    var prev := StepsUpTo(step, legs, n - 1).value;
    assert outs == prev + [step(legs[n - 1], PhaseOfFlight(n - 1, n)).value];
  }

  /** A pass over a node of distance 0 that succeeds takes no time and burns no fuel. */
  ghost predicate ZeroDistanceIsFree(step: (Leg, string) -> Result<LegOutcome>) {
    forall leg: Leg, phaseOfFlight: string :: leg.distance == 0.0 && step(leg, phaseOfFlight).Ok? ==>
      step(leg, phaseOfFlight).value.time == 0.0 && step(leg, phaseOfFlight).value.fuel == 0.0
  }

  /** The passes of computeNavlog are free over a node of distance 0. */
  lemma {:induction false} StepsZeroDistanceIsFree(ctx: NavContext)
    ensures ZeroDistanceIsFree(Steps(ctx))
  {
    forall leg: Leg, phaseOfFlight: string | leg.distance == 0.0 && Steps(ctx)(leg, phaseOfFlight).Ok?
      ensures Steps(ctx)(leg, phaseOfFlight).value.time == 0.0 && Steps(ctx)(leg, phaseOfFlight).value.fuel == 0.0
    {
      LegStepOfZeroDistance(ctx, leg, phaseOfFlight);
    }
  }

  /** When the last node has distance 0, its pass adds nothing, so the totals of the report
      are its last running entries (the fuel once cut to hundredths). */
  lemma {:induction false} StepsTotalsMatchLastEntry(step: (Leg, string) -> Result<LegOutcome>, legs: seq<Leg>,
                                                     outs: seq<LegOutcome>, report: NavlogReport)
    requires ZeroDistanceIsFree(step)
    requires 2 <= |legs| && legs[|legs| - 1].distance == 0.0
    requires StepsUpTo(step, legs, |legs|) == Ok(outs) && report == Report(legs, outs)
    ensures |report.runningFuelBurn| == |report.runningEte| == |report.route| - 1
    ensures report.totalFuelBurn == Truncate(report.runningFuelBurn[|report.route| - 2])
    ensures report.totalEte == report.runningEte[|report.route| - 2]
  {
    LastStepAddsNothing(step, legs, outs);
    ReportTotalsMatchLastEntry(legs, outs, report);
  }



  /** The last node has distance 0, so its pass adds nothing: the report's totals are the last
      running entries the source keeps (once the fuel is cut to hundredths). */
  lemma {:induction false} NavlogTotalsMatchLastEntry(env: Env, route: string, aircraft: string, cruiseAlt: string, tas: string,
                                                      report: NavlogReport)
    requires Navlog(env, route, aircraft, cruiseAlt, tas) == Ok(report) && 2 <= |report.route|
    ensures |report.runningFuelBurn| == |report.runningEte| == |report.route| - 1
    ensures report.totalFuelBurn == Truncate(report.runningFuelBurn[|report.route| - 2])
    ensures report.totalEte == report.runningEte[|report.route| - 2]
  {
    var legs := ResolveRoute(env, route).value;
    var altitude := ParseInt(cruiseAlt).value;
    var ctx := RouteContext(env, legs, aircraft, altitude, tas);
    NavlogIsReport(env, route, aircraft, cruiseAlt, tas);
    StepsZeroDistanceIsFree(ctx);
    StepsTotalsMatchLastEntry(Steps(ctx), legs, StepsUpTo(Steps(ctx), legs, |legs|).value, report);
  }

  /** For an aircraft whose burn rates are not negative, and with the library's angle ranges
      and a parseDouble that reads digit strings, no leg burns negative fuel, so the running
      fuel entries never decrease, start at no less than the allowance and, cut to
      hundredths, never exceed the total. */
  lemma {:induction false} NavlogFuelNonDecreasing(env: Env, route: string, aircraft: string, cruiseAlt: string, tas: string)
    requires Navlog(env, route, aircraft, cruiseAlt, tas).Ok?
    requires ValidTrig(env.trig) && ParsesDecimals(env.parseDouble)
    requires aircraft in env.aircraftDb
    requires var a := env.aircraftDb[aircraft];
      0.0 <= a.clbFuelBurn && 0.0 <= a.crzFuelBurn && 0.0 <= a.descFuelBurn
    ensures var report := Navlog(env, route, aircraft, cruiseAlt, tas).value;
      (forall j, k :: 0 <= j <= k < |report.runningFuelBurn| ==>
        InitialFuelBurn <= report.runningFuelBurn[j] <= report.runningFuelBurn[k]) &&
      (forall j :: 0 <= j < |report.runningFuelBurn| ==> Truncate(report.runningFuelBurn[j]) <= report.totalFuelBurn)
  {
    var legs := ResolveRoute(env, route).value;
    var n := |legs|;
    var altitude := ParseInt(cruiseAlt).value;
    var ctx := RouteContext(env, legs, aircraft, altitude, tas);
    var outs := StepsUpTo(Steps(ctx), legs, n).value;
    assert Navlog(env, route, aircraft, cruiseAlt, tas) == Ok(Report(legs, outs));
    ResolveRouteGeometry(env, route);
    StepsUpToAll(Steps(ctx), legs, n);
    forall l | 0 <= l < n ensures 0.0 <= outs[l].fuel {
      assert Steps(ctx)(legs[l], PhaseOfFlight(l, n)) == LegStep(ctx, legs[l], PhaseOfFlight(l, n));
      LegBurnNotNegative(ctx, legs[l], l, n);
    }
    ReportFuelNonDecreasing(legs, outs);
  }

  /** The length of a route: the distances of its nodes added up, first node first. */
  function LegDistances(legs: seq<Leg>): real {
    if |legs| == 0 then 0.0 else LegDistances(legs[..|legs| - 1]) + legs[|legs| - 1].distance
  }

  /** A pass that succeeds reports the distance of the node it flew. */
  ghost predicate DistanceIsKept(step: (Leg, string) -> Result<LegOutcome>) {
    forall leg: Leg, phaseOfFlight: string :: step(leg, phaseOfFlight).Ok? ==>
      step(leg, phaseOfFlight).value.distance == leg.distance
  }

  /** The passes of computeNavlog add up each node's own distance. */
  lemma {:induction false} StepsKeepDistance(ctx: NavContext)
    ensures DistanceIsKept(Steps(ctx))
  {
    forall leg: Leg, phaseOfFlight: string | Steps(ctx)(leg, phaseOfFlight).Ok?
      ensures Steps(ctx)(leg, phaseOfFlight).value.distance == leg.distance
    {
      var reading := ReadCorrection(ctx, leg);
      assert Steps(ctx)(leg, phaseOfFlight) == LegFromReading(ctx.env, ctx.aircraft, leg, phaseOfFlight, reading);
      LegFromReadingKeepsReading(ctx.env, ctx.aircraft, leg, phaseOfFlight, reading);
    }
  }

  /** After k passes that keep distances, the distance total is the length of the first k
      nodes. */
  lemma {:induction false} StepsDistanceSum(step: (Leg, string) -> Result<LegOutcome>, legs: seq<Leg>, k: nat)
    requires k <= |legs| && DistanceIsKept(step) && StepsUpTo(step, legs, k).Ok?
    ensures DistanceSum(StepsUpTo(step, legs, k).value) == LegDistances(legs[..k])
  {
    if k > 0 {
      var outs := StepsUpTo(step, legs, k).value;
      var prev := StepsUpTo(step, legs, k - 1).value;
      var out := step(legs[k - 1], PhaseOfFlight(k - 1, |legs|)).value;
      assert outs == prev + [out];
      assert outs[..k - 1] == prev;
      StepsDistanceSum(step, legs, k - 1);
      assert legs[..k][..k - 1] == legs[..k - 1];
    }
  }

  /** The reported distance is the length of the resolved route, cut to hundredths. */
  lemma {:induction false} NavlogDistance(env: Env, route: string, aircraft: string, cruiseAlt: string, tas: string,
                                          report: NavlogReport)
    requires Navlog(env, route, aircraft, cruiseAlt, tas) == Ok(report)
    ensures ResolveRoute(env, route).Ok?
    ensures report.distance == Truncate(LegDistances(ResolveRoute(env, route).value))
  {
    NavlogIsReport(env, route, aircraft, cruiseAlt, tas);
    var legs := ResolveRoute(env, route).value;
    var ctx := RouteContext(env, legs, aircraft, ParseInt(cruiseAlt).value, tas);
    StepsKeepDistance(ctx);
    StepsDistanceSum(Steps(ctx), legs, |legs|);
    assert legs[..|legs|] == legs;
  }
}
