/** Great-circle geometry and the along-track wind component (computeBearing, computeDistance,
    computeGroundSpeed). The trigonometry itself is the abstract `Trig` of the environment; what
    is modelled is the arithmetic the source wraps around it.
 */
module Geometry {
  import opened Entities
  import opened JavaLang

  /** Earth radius used by computeDistance, in nautical miles. */
  const EarthRadiusNm: real := 3440.0

  /** computeBearing: the atan2 bearing in degrees, moved into [0, 360) by `(deg + 360) % 360`
      (NavigationServiceImpl.java, lines 516-522). */
  function Bearing(t: Trig, from: LatLon, to: LatLon): real {
    RealRem360(t.bearingAtan2Deg(from, to) + 360.0)
  }

  /** A west-of-north atan2 angle gains a full turn, any other angle is kept, so the bearing is
      always a compass direction in [0, 360). */
  lemma {:induction false} BearingNormalized(t: Trig, from: LatLon, to: LatLon)
    requires ValidTrig(t)
    ensures 0.0 <= Bearing(t, from, to) < 360.0
    ensures t.bearingAtan2Deg(from, to) < 0.0 ==> Bearing(t, from, to) == t.bearingAtan2Deg(from, to) + 360.0
    ensures 0.0 <= t.bearingAtan2Deg(from, to) ==> Bearing(t, from, to) == t.bearingAtan2Deg(from, to)
  {
    var raw := t.bearingAtan2Deg(from, to);
    assert -180.0 <= raw <= 180.0;
  }

  /** computeDistance: the haversine central angle scaled by the Earth radius (NavigationServiceImpl.java, lines
      524-533). */
  function Distance(t: Trig, from: LatLon, to: LatLon): real {
    EarthRadiusNm * t.centralAngle(from, to)
  }

  /** computeGroundSpeed: true airspeed less the wind component along the course (a headwind
      slows the aircraft, a tailwind speeds it up; NavigationServiceImpl.java, lines 567-576). */
  function GroundSpeed(t: Trig, airspeed: real, windSpeed: real, course: real, windDirection: real): real {
    airspeed - windSpeed * t.cosDeg(windDirection - course)
  }

  /** The wind can change the speed over the ground by at most its own speed; no wind, no change. */
  lemma {:induction false} GroundSpeedWithinWind(t: Trig, airspeed: real, windSpeed: real, course: real, windDirection: real)
    requires ValidTrig(t)
    ensures windSpeed >= 0.0 ==>
      airspeed - windSpeed <= GroundSpeed(t, airspeed, windSpeed, course, windDirection) <= airspeed + windSpeed
    ensures windSpeed == 0.0 ==> GroundSpeed(t, airspeed, windSpeed, course, windDirection) == airspeed
  {
    var c := t.cosDeg(windDirection - course);
    assert -1.0 <= c <= 1.0;
    if windSpeed >= 0.0 {
      ScaledUnitBound(windSpeed, c);
    }
  }

  lemma {:induction false} ScaledUnitBound(w: real, c: real)
    requires w >= 0.0 && -1.0 <= c <= 1.0
    ensures -w <= w * c <= w
  {
  }
}
