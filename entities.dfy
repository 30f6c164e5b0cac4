/** The records the navigation service works on, and the collaborators it calls.

    The repositories (airports by ICAO code, fixes by id), the winds-aloft client and the aircraft
    database are lookup maps. `Double.parseDouble` and the trigonometry behind the great-circle
    formulas and the wind triangle are function values with no definition here: lemmas that need
    a fact about them say so through `ValidTrig` or `ParsesDecimals`.
 */
module Entities {
  import opened Outcome
  import JavaLang

  datatype LatLon = LatLon(lat: real, lon: real)

  datatype Airport = Airport(icao: string, latitude: real, longitude: real)

  datatype Fix = Fix(fixxId: string, latitude: real, longitude: real)

  /** A winds-aloft reading: direction in degrees true, speed in knots, and where it came from. */
  datatype WindAloft = WindAloft(
    direction: int,
    speed: int,
    closestAirportCode: string,
    distanceFromOriginalAirportInMiles: real)

  /** Fuel burn in gallons per hour for climb, cruise and descent. */
  datatype Aircraft = Aircraft(clbFuelBurn: real, crzFuelBurn: real, descFuelBurn: real)

  /** What a RouteNode holds: its label, a bearing in degrees and a distance in nautical miles. */
  datatype Leg = Leg(nodeName: string, bearing: real, distance: real)

  /** The floating-point functions the source calls, in degrees where the source converts.
      `bearingAtan2Deg` is `toDegrees(atan2(y, x))` of computeBearing and `centralAngle` is
      `2 * atan2(sqrt(a), sqrt(1 - a))` of computeDistance. */
  datatype Trig = Trig(
    bearingAtan2Deg: (LatLon, LatLon) -> real,
    centralAngle: (LatLon, LatLon) -> real,
    sinDeg: real -> real,
    cosDeg: real -> real,
    asinDeg: real -> real)

  /** The ranges of the Java library functions: atan2 lies in [-180, 180] degrees, the central
      angle `2 * atan2(sqrt(a), sqrt(1 - a))` is not negative, cosine lies in [-1, 1], arcsine
      maps [-1, 1] into [-90, 90] and 0 to 0. */
  ghost predicate ValidTrig(t: Trig) {
    (forall a, b :: -180.0 <= t.bearingAtan2Deg(a, b) <= 180.0) &&
    (forall a, b :: 0.0 <= t.centralAngle(a, b)) &&
    (forall x :: -1.0 <= t.cosDeg(x) <= 1.0) &&
    (forall x :: -1.0 <= x <= 1.0 ==> -90.0 <= t.asinDeg(x) <= 90.0) &&
    t.asinDeg(0.0) == 0.0
  }

  /** `Double.parseDouble` rejects the empty string and reads a plain digit string as its value. */
  ghost predicate ParsesDecimals(parseDouble: string -> Option<real>) {
    parseDouble("") == None &&
    forall n: nat :: parseDouble(JavaLang.NatToDigits(n)) == Some(n as real)
  }

  /** Everything the navlog computation consults besides its own arguments. */
  datatype Env = Env(
    airports: map<string, Airport>,         // AirportRepository.findByIcao
    fixes: map<string, Fix>,                // FIXXRepository.findByFixxId
    winds: map<(string, int), WindAloft>,   // WindsAloftClient.getWindsAloftByIcao
    aircraftDb: map<string, Aircraft>,      // AircraftDB.getAircraftFromDB
    parseDouble: string -> Option<real>,    // Double.parseDouble
    trig: Trig)
}
