/** The wind aggregator: the winds-aloft reading with its calm default (getWindsAoft), and the
    rounded mean of two readings that computeNavlog uses for the whole route.
 */
module WindsAloft {
  import opened Entities
  import opened JavaLang

  /** getWindsAoft: the client's reading for the station and altitude; when the client has none,
      a calm 0@0 reading attributed to the queried station at distance 0. A reading that is
      present is passed on as it is, a calm one included. */
  function GetWindsAloft(env: Env, icao: string, altitude: int): (w: WindAloft)
    ensures (icao, altitude) in env.winds ==> w == env.winds[(icao, altitude)]
    ensures (icao, altitude) !in env.winds ==> w.direction == 0 && w.speed == 0 && w.closestAirportCode == icao
  {
    if (icao, altitude) in env.winds then env.winds[(icao, altitude)]
    else WindAloft(0, 0, icao, 0.0)
  }

  /** `(int) Math.round((a + b) / 2.0)`: the mean of two int readings, halves rounded up. */
  function RoundedMean(a: int, b: int): int {
    JavaRound((a + b) as real / 2.0)
  }

  /** The rounded mean is the integer `(a + b + 1) / 2` (floor division) and lies between the
      two readings. */
  lemma {:induction false} RoundedMeanIsHalfUp(a: int, b: int)
    ensures RoundedMean(a, b) == (a + b + 1) / 2
    ensures (if a <= b then a else b) <= RoundedMean(a, b) <= (if a <= b then b else a)
  {
    var m := RoundedMean(a, b);
    assert (a + b) as real / 2.0 - 0.5 < m as real <= (a + b) as real / 2.0 + 0.5;
    assert (a + b - 1) as real < (2 * m) as real <= (a + b + 1) as real;
    assert a + b - 1 < 2 * m <= a + b + 1;
  }
}
