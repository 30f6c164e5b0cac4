/** The course corrector: wind triangle, compass deviation and the "course-groundspeed" reply of
    ComputeTrueCourseAndGroundsped, with the "direction@speed" wind string it is handed.
 */
module CourseCorrector {
  import opened Outcome
  import opened JavaLang
  import opened Entities
  import opened Geometry

  /** Degrees to add to a true course, per 30-degree compass bucket. */
  const CompassDeviationTable: map<int, int> := map[
    0 := 0, 30 := 1, 60 := 4, 90 := 6, 120 := 4, 150 := 3,
    180 := 2, 210 := 0, 240 := 0, 270 := 0, 300 := 0, 330 := -1]

  /** The compass bucket of a course, `((tc + 15) / 30) * 30 % 360` in Java int arithmetic. */
  function CompassBucket(trueCourse: int): int {
    IntRem(IntDiv(trueCourse + 15, 30) * 30, 360)
  }

  /** `getOrDefault(bucket, 0)` on the deviation table. */
  function Deviation(bucket: int): int {
    if bucket in CompassDeviationTable then CompassDeviationTable[bucket] else 0
  }

  /** The compass-adjusted course `(tc + deviation + 360) % 360`. */
  function CompassAdjust(trueCourse: int): int {
    IntRem(trueCourse + Deviation(CompassBucket(trueCourse)) + 360, 360)
  }

  /** The table has exactly the twelve multiples of 30 below 360 as keys. */
  lemma {:induction false} DeviationTableKeys(b: int)
    ensures b in CompassDeviationTable <==> 0 <= b < 360 && b % 30 == 0
  {
    if 0 <= b < 360 && b % 30 == 0 {
      var k := b / 30;
      assert b == 30 * k && 0 <= k < 12;
      if k == 0 {} else if k == 1 {} else if k == 2 {} else if k == 3 {}
      else if k == 4 {} else if k == 5 {} else if k == 6 {} else if k == 7 {}
      else if k == 8 {} else if k == 9 {} else if k == 10 {} else {}
    }
  }

  /** For a course in [0, 360) the bucket is the nearest multiple of 30 (halves go up, and the
      courses from 345 on wrap to 0), and it is always a key of the table, so the default of
      getOrDefault is never used. */
  lemma {:induction false} CompassBucketIsNearestKey(tc: int)
    requires 0 <= tc < 360
    ensures CompassBucket(tc) in CompassDeviationTable
    ensures 0 <= CompassBucket(tc) <= 330 && CompassBucket(tc) % 30 == 0
    ensures tc < 345 ==> tc - 15 < CompassBucket(tc) <= tc + 15
    ensures 345 <= tc ==> CompassBucket(tc) == 0
  {
    var q := (tc + 15) / 30;
    assert 0 <= q <= 12;
    assert IntDiv(tc + 15, 30) == q;
    var b := CompassBucket(tc);
    if q == 12 {
      assert b == 0;
    } else {
      assert b == 30 * q;
    }
    DeviationTableKeys(b);
  }

  /** The compass-adjusted course of a course in [0, 360) is again in [0, 360) and differs from
      it by the table's deviation, modulo a full turn. */
  lemma {:induction false} CompassAdjustInRange(tc: int)
    requires 0 <= tc < 360
    ensures 0 <= CompassAdjust(tc) < 360
    ensures CompassBucket(tc) in CompassDeviationTable
    ensures (CompassAdjust(tc) - tc - CompassDeviationTable[CompassBucket(tc)]) % 360 == 0
  {
    CompassBucketIsNearestKey(tc);
    var b := CompassBucket(tc);
    DeviationBounds(b);
    var d := CompassDeviationTable[b];
    assert Deviation(b) == d;
    var x := tc + d + 360;
    var r := x % 360;
    assert CompassAdjust(tc) == r;
    assert x == 360 * (x / 360) + r;
    assert r - tc - d == 360 * (1 - x / 360);
    FullTurns(1 - x / 360);
  }

  /** A whole number of full turns is 0 modulo a full turn. */
  lemma {:induction false} FullTurns(m: int)
    ensures (360 * m) % 360 == 0
  {
  }

  /** Every deviation in the table lies between -1 and 6 degrees. */
  lemma {:induction false} DeviationBounds(b: int)
    requires b in CompassDeviationTable
    ensures -1 <= CompassDeviationTable[b] <= 6
  {
    DeviationTableKeys(b);
    var k := b / 30;
    assert b == 30 * k && 0 <= k < 12;
    if k == 0 {} else if k == 1 {} else if k == 2 {} else if k == 3 {}
    else if k == 4 {} else if k == 5 {} else if k == 6 {} else if k == 7 {}
    else if k == 8 {} else if k == 9 {} else if k == 10 {} else {}
  }

  /** The signed angle from the course to the wind, `((wh - pc + 540) % 360) - 180`. */
  function WindAngle(windHeading: int, plottedCourse: int): int {
    IntRem(windHeading - plottedCourse + 540, 360) - 180
  }

  /** For a wind direction in [0, 360] and a course in [0, 360) the angle lies in [-180, 180)
      and is the wind direction minus the course, modulo a full turn. */
  lemma {:induction false} WindAngleIsSigned(windHeading: int, plottedCourse: int)
    requires 0 <= windHeading <= 360 && 0 <= plottedCourse < 360
    ensures -180 <= WindAngle(windHeading, plottedCourse) < 180
    ensures (WindAngle(windHeading, plottedCourse) - (windHeading - plottedCourse)) % 360 == 0
  {
    var x := windHeading - plottedCourse + 540;
    assert 0 <= x;
    var r := x % 360;
    assert WindAngle(windHeading, plottedCourse) == r - 180;
    assert x == 360 * (x / 360) + r;
    assert r - 180 - (windHeading - plottedCourse) == 360 * (1 - x / 360);
  }

  /** The sine of the wind correction angle, `windspeed * sin(angle) / TAS` clamped to [-1, 1];
      `None` stands for the NaN Java computes from 0 / 0 when TAS is 0 and there is no
      crosswind. With TAS 0 and a crosswind Java divides to an infinity, which the clamp turns
      into 1 or -1. */
  function ClampedSinWca(t: Trig, windSpeed: int, angleDiff: int, tas: int): (s: Option<real>)
    ensures s.Some? ==> -1.0 <= s.value <= 1.0
    ensures s.None? <==> tas == 0 && windSpeed as real * t.sinDeg(angleDiff as real) == 0.0
    ensures tas != 0 && -1.0 <= windSpeed as real * t.sinDeg(angleDiff as real) / tas as real <= 1.0 ==>
      s == Some(windSpeed as real * t.sinDeg(angleDiff as real) / tas as real)
  {
    var crosswind := windSpeed as real * t.sinDeg(angleDiff as real);
    if tas != 0 then Some(ClampUnit(crosswind / tas as real))
    else if crosswind > 0.0 then Some(1.0)
    else if crosswind < 0.0 then Some(-1.0)
    else None
  }

  /** `(int) ((plottedCourse + WCA + 360) % 360)` where WCA is the arcsine of the clamped sine in
      degrees; a NaN correction angle casts to 0. */
  function WindCorrectedCourse(t: Trig, plottedCourse: int, sinWca: Option<real>): int {
    match sinWca
    case None => 0
    case Some(s) => TruncToInt(RealRem360(plottedCourse as real + t.asinDeg(s) + 360.0))
  }

  /** The two results of ComputeTrueCourseAndGroundsped: the compass-adjusted course and
      `Math.round` of the ground speed. */
  datatype Correction = Correction(course: int, groundSpeed: int)

  /** The computation of ComputeTrueCourseAndGroundsped, on numbers. */
  function Correct(t: Trig, plottedCourse: int, windHeading: int, windSpeed: int, tas: int): Correction {
    var groundSpeed := GroundSpeed(t, tas as real, windSpeed as real, plottedCourse as real, windHeading as real);
    var angleDiff := WindAngle(windHeading, plottedCourse);
    var sinWca := ClampedSinWca(t, windSpeed, angleDiff, tas);
    var trueCourse := WindCorrectedCourse(t, plottedCourse, sinWca);
    Correction(CompassAdjust(trueCourse), JavaRound(groundSpeed))
  }

  /** Whatever the wind and the airspeed, thanks to the clamp the corrected course of a plotted
      course in [0, 360) is a compass direction in [0, 360), and the rounded ground speed is
      within the wind speed of the true airspeed. */
  lemma {:induction false} CorrectInRange(t: Trig, plottedCourse: int, windHeading: int, windSpeed: int, tas: int)
    requires ValidTrig(t)
    requires 0 <= plottedCourse < 360
    ensures 0 <= Correct(t, plottedCourse, windHeading, windSpeed, tas).course < 360
    ensures 0 <= windSpeed ==>
      tas - windSpeed <= Correct(t, plottedCourse, windHeading, windSpeed, tas).groundSpeed <= tas + windSpeed
  {
    var angleDiff := WindAngle(windHeading, plottedCourse);
    var sinWca := ClampedSinWca(t, windSpeed, angleDiff, tas);
    var trueCourse := WindCorrectedCourse(t, plottedCourse, sinWca);
    if sinWca.Some? {
      var wca := t.asinDeg(sinWca.value);
      assert -90.0 <= wca <= 90.0;
      assert 0.0 <= plottedCourse as real + wca + 360.0;
    }
    assert 0 <= trueCourse < 360;
    CompassAdjustInRange(trueCourse);
    GroundSpeedWithinWind(t, tas as real, windSpeed as real, plottedCourse as real, windHeading as real);
  }

  /** With no wind and a nonzero airspeed the course changes only by the compass deviation and
      the ground speed is the true airspeed. */
  lemma {:induction false} CorrectWithoutWind(t: Trig, plottedCourse: int, windHeading: int, tas: int)
    requires ValidTrig(t)
    requires 0 <= plottedCourse < 360 && tas != 0
    ensures Correct(t, plottedCourse, windHeading, 0, tas) == Correction(CompassAdjust(plottedCourse), tas)
  {
    var angleDiff := WindAngle(windHeading, plottedCourse);
    assert 0 as real * t.sinDeg(angleDiff as real) == 0.0;
    assert ClampedSinWca(t, 0, angleDiff, tas) == Some(0.0);
    assert t.asinDeg(0.0) == 0.0;
    assert WindCorrectedCourse(t, plottedCourse, Some(0.0)) == plottedCourse;
    assert GroundSpeed(t, tas as real, 0.0, plottedCourse as real, windHeading as real) == tas as real;
  }

  // ---------------------------------------------------------------- the strings

  /** `avgDirection + "@" + avgSpeed`: the route wind as computeNavlog passes it on. */
  function EncodeWinds(direction: int, speed: int): string {
    IntToString(direction) + "@" + IntToString(speed)
  }

  /** `Integer.parseInt(w.split("@")[0])`, then the same on field 1. */
  function ParseWinds(windsAloft: string): Result<(int, int)> {
    var fields := JavaSplit(windsAloft, '@');
    if |fields| == 0 then Err(IndexOutOfBounds)
    else
      var heading :- ParseInt(fields[0]);
      if |fields| < 2 then Err(IndexOutOfBounds)
      else
        var speed :- ParseInt(fields[1]);
        Ok((heading, speed))
  }

  /** The wind string round-trips: every pair of int readings is parsed back unchanged. */
  lemma {:induction false} ParseWindsOfEncodeWinds(direction: int, speed: int)
    requires IntMin <= direction <= IntMax && IntMin <= speed <= IntMax
    ensures ParseWinds(EncodeWinds(direction, speed)) == Ok((direction, speed))
  {
    var parts := [IntToString(direction), IntToString(speed)];
    IntToStringHasNo(direction, '@');
    IntToStringHasNo(speed, '@');
    assert JoinWith(parts, '@') == EncodeWinds(direction, speed);
    JavaSplitOfJoin(parts, '@');
    ParseIntOfIntToString(direction);
    ParseIntOfIntToString(speed);
  }

  /** `adjustedTrueCourse + "-" + Math.round(groundSpeed)`. */
  function EncodeCorrection(c: Correction): string {
    IntToString(c.course) + "-" + IntToString(c.groundSpeed)
  }

  /** ComputeTrueCourseAndGroundsped: read the wind string, correct the course, and reply with
      the two numbers joined by "-" (NavigationServiceImpl.java, lines 535-561). */
  function ComputeTrueCourseAndGroundsped(t: Trig, plottedCourse: int, windsAloftAtCruise: string, tas: int): Result<string> {
    var wind :- ParseWinds(windsAloftAtCruise);
    Ok(EncodeCorrection(Correct(t, plottedCourse, wind.0, wind.1, tas)))
  }

  /** `Double.parseDouble(reply.split("-")[1])`: the ground speed as computeNavlog reads it. */
  function DecodeGroundSpeed(parseDouble: string -> Option<real>, reply: string): Result<real> {
    var fields := JavaSplit(reply, '-');
    if |fields| < 2 then Err(IndexOutOfBounds)
    else
      match parseDouble(fields[1])
      case None => Err(NumberFormat(fields[1]))
      case Some(v) => Ok(v)
  }

  /** `Integer.parseInt(reply.split("-")[0])`: the course as computeNavlog reads it. */
  function DecodeCourse(reply: string): Result<int> {
    var fields := JavaSplit(reply, '-');
    if |fields| == 0 then Err(IndexOutOfBounds) else ParseInt(fields[0])
  }

  /** Field 0 of the reply reads back as the course, whatever the ground speed. */
  lemma {:induction false} DecodeCourseOfEncoded(c: Correction)
    requires 0 <= c.course <= IntMax
    ensures DecodeCourse(EncodeCorrection(c)) == Ok(c.course)
  {
    var courseText := IntToString(c.course);
    IntToStringHasNo(c.course, '-');
    ParseIntOfIntToString(c.course);
    var reply := EncodeCorrection(c);
    assert reply == courseText + ['-'] + IntToString(c.groundSpeed);
    assert reply[|courseText|] == '-';
    SplitAllAfterPiece(courseText, IntToString(c.groundSpeed), '-');
    var parts := SplitAll(reply, '-');
    assert parts[0] == courseText;
    var fields := JavaSplit(reply, '-');
    assert fields == DropTrailingEmpty(parts);
    assert fields <= parts;
    assert fields[0] == parts[0];
  }

  /** The reply decodes to the pair it encodes exactly when the rounded ground speed is not
      negative; a negative one puts a second "-" in the reply, field 1 comes out empty and
      parseDouble throws. */
  lemma {:induction false} DecodeEncodedCorrection(parseDouble: string -> Option<real>, c: Correction)
    requires ParsesDecimals(parseDouble)
    requires 0 <= c.course <= IntMax
    ensures DecodeCourse(EncodeCorrection(c)) == Ok(c.course)
    ensures DecodeGroundSpeed(parseDouble, EncodeCorrection(c)) ==
      if 0 <= c.groundSpeed then Ok(c.groundSpeed as real) else Err(NumberFormat(""))
  {
    DecodeCourseOfEncoded(c);
    if 0 <= c.groundSpeed {
      SplitOfReply(c);
    } else {
      SplitOfNegativeReply(c);
    }
  }

  /** With a ground speed that is not negative, the reply splits into the two numbers. */
  lemma {:induction false} SplitOfReply(c: Correction)
    requires 0 <= c.course && 0 <= c.groundSpeed
    ensures JavaSplit(EncodeCorrection(c), '-') == [IntToString(c.course), NatToDigits(c.groundSpeed)]
  {
    var parts := [IntToString(c.course), IntToString(c.groundSpeed)];
    IntToStringHasNo(c.course, '-');
    IntToStringHasNo(c.groundSpeed, '-');
    assert JoinWith(parts, '-') == EncodeCorrection(c);
    JavaSplitOfJoin(parts, '-');
  }

  /** With a negative ground speed, the reply splits into the course, an empty field and the
      digits of the ground speed. */
  lemma {:induction false} SplitOfNegativeReply(c: Correction)
    requires 0 <= c.course && c.groundSpeed < 0
    ensures JavaSplit(EncodeCorrection(c), '-') == [IntToString(c.course), "", NatToDigits(-c.groundSpeed)]
  {
    var digits := NatToDigits(-c.groundSpeed);
    var parts := [IntToString(c.course), "", digits];
    IntToStringHasNo(c.course, '-');
    assert '-' !in digits;
    assert IntToString(c.groundSpeed) == "-" + digits;
    assert JoinWith(parts[1..], '-') == "" + "-" + digits;
    assert JoinWith(parts, '-') == EncodeCorrection(c);
    JavaSplitOfJoin(parts, '-');
  }
}
