/** The route resolver: a route string becomes an ordered list of route nodes (prepareRouteObject),
    each token resolved by getLatLon to a coordinate, an airport or a fix.

    `ResolveRoute` is the value the list must hold; `PrepareRouteObject` builds the list of
    freshly allocated `RouteNode` objects in a loop, as the source fills its ArrayList, and is
    proved to produce exactly that value.
 */
module RouteResolver {
  import opened Outcome
  import opened JavaLang
  import opened Entities
  import opened Geometry

  // ---------------------------------------------------------------- token forms

  /** The regular expression `\(.*?,.*?\)`: an opening parenthesis, a comma somewhere inside,
      a closing parenthesis. */
  predicate IsCoordinateToken(point: string) {
    |point| >= 2 && point[0] == '(' && point[|point| - 1] == ')' && ',' in point[1..|point| - 1]
  }

  /** isICAO: four characters, each an upper-case letter A to Z. */
  predicate IsIcao(point: string) {
    |point| == 4 && forall i :: 0 <= i < |point| ==> 'A' <= point[i] <= 'Z'
  }

  /** getIdentifier: the token itself, whichever form it has. */
  function GetIdentifier(point: string): (id: string)
    ensures id == point
  {
    if IsCoordinateToken(point) then point       // raw lat/lon text
    else if IsIcao(point) then point             // ICAO code
    else point                                   // fix id
  }

  function ParseDouble(env: Env, text: string): Result<real> {
    match env.parseDouble(text)
    case None => Err(NumberFormat(text))
    case Some(v) => Ok(v)
  }

  /** getAirportFromICAO. */
  function AirportFromIcao(env: Env, icaoCode: string): Result<Airport> {
    if icaoCode in env.airports then Ok(env.airports[icaoCode]) else Err(AirportNotFound(icaoCode))
  }

  /** getFIXXFromId: the repository's fix; failing that, an id in parentheses is read as
      "lat,lon" and becomes an ad-hoc fix; any other id is FixxNotFound. */
  function FixxFromId(env: Env, fixxId: string): (r: Result<Fix>)
    ensures fixxId in env.fixes ==> r == Ok(env.fixes[fixxId])
    ensures r.Ok? && fixxId !in env.fixes ==>
      2 <= |fixxId| && fixxId[0] == '(' && fixxId[|fixxId| - 1] == ')' && r.value.fixxId == fixxId
    ensures fixxId !in env.fixes && 0 < |fixxId| && !(fixxId[0] == '(' && fixxId[|fixxId| - 1] == ')') ==>
      r == Err(FixxNotFound(fixxId))
  {
    if fixxId in env.fixes then Ok(env.fixes[fixxId])
    else if |fixxId| == 0 then Err(IndexOutOfBounds)       // charAt(0) of an empty id
    else if fixxId[0] == '(' && fixxId[|fixxId| - 1] == ')' then
      var formattedCoordinates := JavaSplit(fixxId[1..|fixxId| - 1], ',');
      if |formattedCoordinates| == 0 then Err(IndexOutOfBounds)
      else
        var latitude :- ParseDouble(env, formattedCoordinates[0]);
        if |formattedCoordinates| < 2 then Err(IndexOutOfBounds)
        else
          var longitude :- ParseDouble(env, formattedCoordinates[1]);
          Ok(Fix(fixxId, latitude, longitude))
    else Err(FixxNotFound(fixxId))
  }

  /** getLatLon: a "(lat,lon)" token is parsed, an ICAO token is looked up as an airport, any
      other token as a fix (NavigationServiceImpl.java, lines 488-499). */
  function LatLonOf(env: Env, point: string): Result<LatLon> {
    if IsCoordinateToken(point) then
      var coord := JavaSplit(RemoveChar(RemoveChar(point, '('), ')'), ',');
      if |coord| == 0 then Err(IndexOutOfBounds)
      else
        var lat :- ParseDouble(env, coord[0]);
        if |coord| < 2 then Err(IndexOutOfBounds)
        else
          var lon :- ParseDouble(env, coord[1]);
          Ok(LatLon(lat, lon))
    else if IsIcao(point) then
      var airport :- AirportFromIcao(env, point);
      Ok(LatLon(airport.latitude, airport.longitude))
    else
      var fixx :- FixxFromId(env, point);
      Ok(LatLon(fixx.latitude, fixx.longitude))
  }

  /** The three forms are tried in order and never overlap: an ICAO token is only ever looked
      up as an airport, and any other token that is not a coordinate only as a fix. */
  lemma {:induction false} LatLonResolutionOrder(env: Env, point: string)
    ensures IsCoordinateToken(point) ==> !IsIcao(point)
    ensures IsIcao(point) ==>
      LatLonOf(env, point) ==
        if point in env.airports then Ok(LatLon(env.airports[point].latitude, env.airports[point].longitude))
        else Err(AirportNotFound(point))
    ensures !IsCoordinateToken(point) && !IsIcao(point) && point in env.fixes ==>
      LatLonOf(env, point) == Ok(LatLon(env.fixes[point].latitude, env.fixes[point].longitude))
  {
    if IsIcao(point) {
      assert !('A' <= '(' <= 'Z');
      assert !IsCoordinateToken(point);
    }
  }

  /** Reached from getLatLon, the parenthesised fallback of getFIXXFromId never rescues a
      token: a token in parentheses with a comma inside was already parsed as a coordinate, and
      one without a comma has at most one field to read. So an unknown token that is neither a
      coordinate nor an ICAO code always fails, with FixxNotFound when it is not parenthesised. */
  lemma {:induction false} UnknownFixAlwaysFails(env: Env, point: string)
    requires !IsCoordinateToken(point) && !IsIcao(point) && point !in env.fixes
    ensures LatLonOf(env, point).Err?
    ensures 0 < |point| && !(point[0] == '(' && point[|point| - 1] == ')') ==>
      LatLonOf(env, point) == Err(FixxNotFound(point))
  {
    if 2 <= |point| && point[0] == '(' && point[|point| - 1] == ')' {
      var inner := point[1..|point| - 1];
      assert ',' !in inner;
      assert JavaSplit(inner, ',') == [inner];
    }
  }

  /** Deleting the parentheses of "(a,b)" leaves "a,b". */
  lemma {:induction false} StripParens(a: string, b: string)
    requires '(' !in a && ')' !in a && '(' !in b && ')' !in b
    ensures RemoveChar(RemoveChar("(" + a + "," + b + ")", '('), ')') == a + "," + b
  {
    var body := a + "," + b;
    var inner := body + ")";
    assert "(" + a + "," + b + ")" == "(" + inner;
    assert '(' !in inner;
    RemoveCharConcat("(", inner, '(');
    RemoveCharAbsent(inner, '(');
    assert RemoveChar("(" + inner, '(') == inner;
    RemoveCharConcat(body, ")", ')');
    RemoveCharAbsent(body, ')');
  }

  /** A token "(a,b)" whose two fields hold no parenthesis or comma, the second not empty, is
      read as the coordinate parsed from a and from b, with no lookup at all. */
  lemma {:induction false} CoordinateTokenParses(env: Env, a: string, b: string)
    requires '(' !in a && ')' !in a && ',' !in a
    requires '(' !in b && ')' !in b && ',' !in b && |b| > 0
    ensures LatLonOf(env, "(" + a + "," + b + ")") ==
      match (ParseDouble(env, a), ParseDouble(env, b))
      case (Ok(lat), Ok(lon)) => Ok(LatLon(lat, lon))
      case (Err(e), _) => Err(e)
      case (Ok(_), Err(e)) => Err(e)
  {
    var point := "(" + a + "," + b + ")";
    var body := a + "," + b;
    assert point[1..|point| - 1] == body;
    assert body[|a|] == ',';
    assert IsCoordinateToken(point);
    StripParens(a, b);
    assert JoinWith([a, b], ',') == body;
    JavaSplitOfJoin([a, b], ',');
  }

  /** An id "(a,b)" that is not a stored fix, whose fields hold no comma and whose second field
      is not empty, becomes an ad-hoc fix carrying that id and the coordinates parsed from a
      and from b, or fails as the first parse that fails. */
  lemma {:induction false} FixxFallbackParses(env: Env, a: string, b: string)
    requires "(" + a + "," + b + ")" !in env.fixes
    requires ',' !in a && ',' !in b && |b| > 0
    ensures FixxFromId(env, "(" + a + "," + b + ")") ==
      match (ParseDouble(env, a), ParseDouble(env, b))
      case (Ok(lat), Ok(lon)) => Ok(Fix("(" + a + "," + b + ")", lat, lon))
      case (Err(e), _) => Err(e)
      case (Ok(_), Err(e)) => Err(e)
  {
    var id := "(" + a + "," + b + ")";
    var body := a + "," + b;
    assert id[1..|id| - 1] == body;
    assert JoinWith([a, b], ',') == body;
    JavaSplitOfJoin([a, b], ',');
  }

  // ---------------------------------------------------------------- the route

  /** `routeString.split(" ")`. */
  function RouteTokens(routeString: string): seq<string> {
    JavaSplit(routeString, ' ')
  }

  /** What a resolver gives for each token. */
  function ResolveEach(resolve: string -> Result<LatLon>, points: seq<string>): seq<Result<LatLon>> {
    seq(|points|, i requires 0 <= i < |points| => resolve(points[i]))
  }

  /** What getLatLon gives for each token. The lookups have no side effects, so the value
      `ResolveRoute` can read them all ahead of its passes without changing a result or which
      error comes first. */
  function Resolutions(env: Env, points: seq<string>): seq<Result<LatLon>> {
    ResolveEach(p => LatLonOf(env, p), points)
  }

  /** One pass of the loop of prepareRouteObject: the node for token i, carrying the bearing and
      distance from token i to token i + 1; token i is resolved before token i + 1. */
  function LegAt(t: Trig, points: seq<string>, rs: seq<Result<LatLon>>, i: nat): Result<Leg>
    requires |rs| == |points| && i + 1 < |points|
  {
    var from :- rs[i];
    var to :- rs[i + 1];
    Ok(Leg(GetIdentifier(points[i]), Bearing(t, from, to), Distance(t, from, to)))
  }

  /** The nodes of the first k passes, or the first failure among them. */
  function LegsUpTo(t: Trig, points: seq<string>, rs: seq<Result<LatLon>>, k: nat): (r: Result<seq<Leg>>)
    requires |rs| == |points| && k < |points|
    ensures r.Ok? ==> |r.value| == k
  {
    if k == 0 then Ok([])
    else
      var prev :- LegsUpTo(t, points, rs, k - 1);
      var leg :- LegAt(t, points, rs, k - 1);
      Ok(prev + [leg])
  }

  /** The two-token branch of prepareRouteObject: both tokens are looked up as airports, and
      the route is the departure node, carrying the bearing and distance to the arrival, and the
      arrival node with bearing 0 and distance 0. */
  function AirportRoute(env: Env, departureIcao: string, arrivalIcao: string): (r: Result<seq<Leg>>)
    ensures r.Ok? ==> |r.value| == 2 && r.value[1].bearing == 0.0 && r.value[1].distance == 0.0
  {
    var departure :- AirportFromIcao(env, departureIcao);
    var arrival :- AirportFromIcao(env, arrivalIcao);
    var from := LatLon(departure.latitude, departure.longitude);
    var to := LatLon(arrival.latitude, arrival.longitude);
    Ok([Leg(departure.icao, Bearing(env.trig, from, to), Distance(env.trig, from, to)),
        Leg(arrival.icao, 0.0, 0.0)])
  }

  /** prepareRouteObject as a value: a two-token route is resolved through the airport
      repository whatever its tokens look like; otherwise every adjacent pair of tokens gives a
      node, and a final node for the last token carries bearing 0 and distance 0. */
  function ResolveRoute(env: Env, routeString: string): (r: Result<seq<Leg>>)
    ensures r.Ok? ==> |r.value| == |RouteTokens(routeString)| >= 1
    ensures r.Ok? ==> r.value[|r.value| - 1].bearing == 0.0 && r.value[|r.value| - 1].distance == 0.0
  {
    var points := RouteTokens(routeString);
    if |points| == 2 then
      AirportRoute(env, points[0], points[1])
    else if |points| == 0 then
      Err(IndexOutOfBounds)                 // points[points.length - 1] of an empty split
    else
      var legs :- LegsUpTo(env.trig, points, Resolutions(env, points), |points| - 1);
      Ok(legs + [Leg(GetIdentifier(points[|points| - 1]), 0.0, 0.0)])
  }

  /** The first k passes succeed exactly when the first k + 1 tokens resolve, and then node j
      is labelled with token j and carries the bearing and distance from token j to token j + 1. */
  lemma {:induction false} LegsUpToAll(t: Trig, points: seq<string>, rs: seq<Result<LatLon>>, k: nat)
    requires |rs| == |points| && k < |points|
    ensures LegsUpTo(t, points, rs, k).Ok? <==> (k == 0 || forall j :: 0 <= j <= k ==> rs[j].Ok?)
    ensures LegsUpTo(t, points, rs, k).Ok? ==>
      forall j :: 0 <= j < k ==>
        LegsUpTo(t, points, rs, k).value[j] ==
          Leg(points[j], Bearing(t, rs[j].value, rs[j + 1].value), Distance(t, rs[j].value, rs[j + 1].value))
  {
    if k > 0 {
      LegsUpToAll(t, points, rs, k - 1);
    }
  }

  /** Once a pass fails, every longer run of passes fails with the same error. */
  lemma {:induction false} LegsUpToFailureSticks(t: Trig, points: seq<string>, rs: seq<Result<LatLon>>, k: nat, m: nat)
    requires |rs| == |points| && k <= m < |points|
    requires LegsUpTo(t, points, rs, k).Err?
    ensures LegsUpTo(t, points, rs, m) == LegsUpTo(t, points, rs, k)
  {
    if m > k {
      LegsUpToFailureSticks(t, points, rs, k, m - 1);
    }
  }

  /** When the first i passes succeed and pass i fails, the whole loop fails with its error. */
  lemma {:induction false} LegsUpToFailsAt(t: Trig, points: seq<string>, rs: seq<Result<LatLon>>, i: nat)
    requires |rs| == |points| && i + 1 < |points|
    requires LegsUpTo(t, points, rs, i).Ok? && LegAt(t, points, rs, i).Err?
    ensures LegsUpTo(t, points, rs, |points| - 1) == Err(LegAt(t, points, rs, i).error)
  {
    LegsUpToFailureSticks(t, points, rs, i + 1, |points| - 1);
  }

  /** One more pair that resolves extends the nodes by its own. */
  lemma {:induction false} LegsUpToNext(t: Trig, points: seq<string>, rs: seq<Result<LatLon>>, i: nat, prev: seq<Leg>, leg: Leg)
    requires |rs| == |points| && i + 1 < |points|
    requires LegsUpTo(t, points, rs, i) == Ok(prev) && LegAt(t, points, rs, i) == Ok(leg)
    ensures LegsUpTo(t, points, rs, i + 1) == Ok(prev + [leg])
  {
  }

  /** A route resolves exactly when: it has one token (nothing is looked up); or two tokens that
      are both airports in the repository; or three or more tokens that all resolve. */
  lemma {:induction false} ResolveRouteSucceeds(env: Env, routeString: string)
    ensures ResolveRoute(env, routeString).Ok? <==>
      |RouteTokens(routeString)| == 1 ||
      (|RouteTokens(routeString)| == 2 &&
       RouteTokens(routeString)[0] in env.airports && RouteTokens(routeString)[1] in env.airports) ||
      (|RouteTokens(routeString)| >= 3 &&
       forall i :: 0 <= i < |RouteTokens(routeString)| ==> LatLonOf(env, RouteTokens(routeString)[i]).Ok?)
  {
    var points := RouteTokens(routeString);
    if |points| == 1 {
      assert LegsUpTo(env.trig, points, Resolutions(env, points), 0) == Ok([]);
    } else if |points| == 2 {
      assert ResolveRoute(env, routeString) == AirportRoute(env, points[0], points[1]);
    } else if |points| >= 3 {
      var rs := Resolutions(env, points);
      var k := |points| - 1;
      LegsUpToAll(env.trig, points, rs, k);
      assert ResolveRoute(env, routeString).Ok? <==> LegsUpTo(env.trig, points, rs, k).Ok?;
      assert forall i :: 0 <= i < |points| ==> rs[i] == LatLonOf(env, points[i]);
    }
  }

  /** A resolved route has one node per token, labelled with that token, except that a
      two-token route carries the ICAO codes of the airports it looked up. */
  lemma {:induction false} ResolveRouteLabels(env: Env, routeString: string, legs: seq<Leg>)
    requires ResolveRoute(env, routeString) == Ok(legs)
    ensures |legs| == |RouteTokens(routeString)|
    ensures |RouteTokens(routeString)| != 2 ==>
      forall i :: 0 <= i < |legs| ==> legs[i].nodeName == RouteTokens(routeString)[i]
    ensures |RouteTokens(routeString)| == 2 ==>
      legs[0].nodeName == env.airports[RouteTokens(routeString)[0]].icao &&
      legs[1].nodeName == env.airports[RouteTokens(routeString)[1]].icao
  {
    var points := RouteTokens(routeString);
    if |points| == 2 {
      var departure := AirportFromIcao(env, points[0]).value;
      var arrival := AirportFromIcao(env, points[1]).value;
      assert legs[0].nodeName == departure.icao && legs[1].nodeName == arrival.icao;
    } else {
      var k := |points| - 1;
      var rs := Resolutions(env, points);
      assert legs == LegsUpTo(env.trig, points, rs, k).value + [Leg(GetIdentifier(points[k]), 0.0, 0.0)];
      PassesThenLastLabels(env.trig, points, rs, legs);
    }
  }

  /** The nodes of every pass followed by the final node are labelled with their tokens. */
  lemma {:induction false} PassesThenLastLabels(t: Trig, points: seq<string>, rs: seq<Result<LatLon>>, legs: seq<Leg>)
    requires 1 <= |points| == |rs| && LegsUpTo(t, points, rs, |points| - 1).Ok?
    requires legs == LegsUpTo(t, points, rs, |points| - 1).value + [Leg(GetIdentifier(points[|points| - 1]), 0.0, 0.0)]
    ensures |legs| == |points|
    ensures forall i :: 0 <= i < |legs| ==> legs[i].nodeName == points[i]
  {
    var k := |points| - 1;
    var passes := LegsUpTo(t, points, rs, k).value;
    LegsUpToLabelsAndBearings(t, points, rs, k);
    forall i | 0 <= i < |points| ensures legs[i].nodeName == points[i] {
      if i < k {
        assert legs[i] == passes[i];
      }
    }
  }

  /** With the library's angle ranges, every bearing of a resolved route is a compass direction
      in [0, 360) and every distance is not negative. */
  lemma {:induction false} ResolveRouteGeometry(env: Env, routeString: string)
    requires ResolveRoute(env, routeString).Ok? && ValidTrig(env.trig)
    ensures forall i :: 0 <= i < |ResolveRoute(env, routeString).value| ==>
      0.0 <= ResolveRoute(env, routeString).value[i].bearing < 360.0 &&
      0.0 <= ResolveRoute(env, routeString).value[i].distance
  {
    var points := RouteTokens(routeString);
    var legs := ResolveRoute(env, routeString).value;
    if |points| == 2 {
      var a := env.airports[points[0]];
      var b := env.airports[points[1]];
      BearingNormalized(env.trig, LatLon(a.latitude, a.longitude), LatLon(b.latitude, b.longitude));
    } else {
      var k := |points| - 1;
      var rs := Resolutions(env, points);
      var passes := LegsUpTo(env.trig, points, rs, k).value;
      assert legs == passes + [Leg(points[k], 0.0, 0.0)];
      LegsUpToLabelsAndBearings(env.trig, points, rs, k);
      forall i | 0 <= i < |legs| ensures 0.0 <= legs[i].bearing < 360.0 && 0.0 <= legs[i].distance {
        if i < k {
          assert legs[i] == passes[i];
        }
      }
    }
  }

  lemma {:induction false} LegsUpToLabelsAndBearings(t: Trig, points: seq<string>, rs: seq<Result<LatLon>>, k: nat)
    requires |rs| == |points| && k < |points|
    requires LegsUpTo(t, points, rs, k).Ok?
    ensures forall i :: 0 <= i < k ==> LegsUpTo(t, points, rs, k).value[i].nodeName == points[i]
    ensures ValidTrig(t) ==> forall i :: 0 <= i < k ==>
      0.0 <= LegsUpTo(t, points, rs, k).value[i].bearing < 360.0 &&
      0.0 <= LegsUpTo(t, points, rs, k).value[i].distance
  {
    if k > 0 {
      LegsUpToLabelsAndBearings(t, points, rs, k - 1);
      var prev := LegsUpTo(t, points, rs, k - 1).value;
      var leg := LegAt(t, points, rs, k - 1).value;
      assert LegsUpTo(t, points, rs, k).value == prev + [leg];
      if ValidTrig(t) {
        BearingNormalized(t, rs[k - 1].value, rs[k].value);
      }
    }
  }

  /** A route written as k separator-free tokens joined by single spaces splits back into those
      k tokens, so for k other than 2 it resolves to k nodes labelled with them. */
  lemma {:induction false} RouteOfTokens(env: Env, tokens: seq<string>)
    requires |tokens| >= 1 && |tokens| != 2
    requires forall i :: 0 <= i < |tokens| ==> ' ' !in tokens[i]
    requires tokens[|tokens| - 1] != ""
    ensures RouteTokens(JoinWith(tokens, ' ')) == tokens
    ensures ResolveRoute(env, JoinWith(tokens, ' ')).Ok? ==>
      |ResolveRoute(env, JoinWith(tokens, ' ')).value| == |tokens| &&
      forall i :: 0 <= i < |tokens| ==> ResolveRoute(env, JoinWith(tokens, ' ')).value[i].nodeName == tokens[i]
  {
    JavaSplitOfJoin(tokens, ' ');
    if ResolveRoute(env, JoinWith(tokens, ' ')).Ok? {
      ResolveRouteLabels(env, JoinWith(tokens, ' '), ResolveRoute(env, JoinWith(tokens, ' ')).value);
    }
  }

  // ---------------------------------------------------------------- the node objects

  /** A RouteNode: its bearing is overwritten in place once the course has been corrected. */
  class RouteNode {
    var nodeName: string
    var bearing: real
    var distance: real

    constructor (nodeName: string, bearing: real, distance: real)
      ensures Value() == Leg(nodeName, bearing, distance)
    {
      this.nodeName := nodeName;
      this.bearing := bearing;
      this.distance := distance;
    }

    function Value(): Leg
      reads this
    {
      Leg(nodeName, bearing, distance)
    }

    /** setBearing: only the bearing changes. */
    method SetBearing(bearing: real)
      modifies this
      ensures Value() == old(Value()).(bearing := bearing)
    {
      this.bearing := bearing;
    }
  }

  /** The values the nodes hold, in order (what the list's toString shows). */
  function Snapshot(nodes: seq<RouteNode>): seq<Leg>
    reads nodes
  {
    seq(|nodes|, j reads nodes requires 0 <= j < |nodes| => nodes[j].Value())
  }

  predicate Distinct(nodes: seq<RouteNode>) {
    forall i, j :: 0 <= i < j < |nodes| ==> nodes[i] != nodes[j]
  }

  /** `flightRoute.add(new RouteNode(...))`: the list grows by one new node holding `leg`, and
      the nodes already in it keep their values. */
  method AppendNode(nodes: seq<RouteNode>, leg: Leg) returns (longer: seq<RouteNode>)
    requires Distinct(nodes)
    ensures |longer| == |nodes| + 1 && longer == nodes + [longer[|nodes|]] && fresh(longer[|nodes|])
    ensures Distinct(longer)
    ensures Snapshot(longer) == Snapshot(nodes) + [leg]
  {
    var node := new RouteNode(leg.nodeName, leg.bearing, leg.distance);
    longer := nodes + [node];
  }

  /** The loop of prepareRouteObject: one new node per adjacent pair of tokens, in order, until
      a token fails to resolve. `resolve` is getLatLon, called afresh for each token. */
  method ResolveLegs(t: Trig, points: seq<string>, resolve: string -> Result<LatLon>)
    returns (r: Result<seq<RouteNode>>)
    requires |points| >= 1
    ensures r.Ok? ==> LegsUpTo(t, points, ResolveEach(resolve, points), |points| - 1) == Ok(Snapshot(r.value))
    ensures r.Ok? ==> Distinct(r.value) && forall j :: 0 <= j < |r.value| ==> fresh(r.value[j])
    ensures r.Err? ==> LegsUpTo(t, points, ResolveEach(resolve, points), |points| - 1) == Err(r.error)
  {
    ghost var rs := ResolveEach(resolve, points);
    var flightRoute: seq<RouteNode> := [];
    assert Snapshot(flightRoute) == [];
    var i := 0;
    while i < |points| - 1
      invariant 0 <= i <= |points| - 1
      invariant |flightRoute| == i
      invariant Distinct(flightRoute)
      invariant forall j :: 0 <= j < i ==> fresh(flightRoute[j])
      invariant LegsUpTo(t, points, rs, i) == Ok(Snapshot(flightRoute))
    {
      var from := resolve(points[i]);
      var to := if from.Ok? then resolve(points[i + 1]) else from;
      assert from == rs[i];
      if to.Err? {
        assert LegAt(t, points, rs, i) == Err(to.error);
        LegsUpToFailsAt(t, points, rs, i);
        return Err(to.error);
      }
      var bearing := Bearing(t, from.value, to.value);
      var distance := Distance(t, from.value, to.value);
      var fromId := GetIdentifier(points[i]);
      assert LegAt(t, points, rs, i) == Ok(Leg(fromId, bearing, distance));
      LegsUpToNext(t, points, rs, i, Snapshot(flightRoute), Leg(fromId, bearing, distance));
      flightRoute := AppendNode(flightRoute, Leg(fromId, bearing, distance));
      i := i + 1;
    }
    return Ok(flightRoute);
  }

  /** The two-token branch of prepareRouteObject: two new nodes, for the departure and the
      arrival airport, or the error of the first lookup that fails. */
  method PrepareAirportRoute(env: Env, departureIcao: string, arrivalIcao: string) returns (r: Result<seq<RouteNode>>)
    ensures r.Ok? ==> AirportRoute(env, departureIcao, arrivalIcao) == Ok(Snapshot(r.value))
    ensures r.Ok? ==> Distinct(r.value) && forall j :: 0 <= j < |r.value| ==> fresh(r.value[j])
    ensures r.Err? ==> AirportRoute(env, departureIcao, arrivalIcao) == Err(r.error)
  {
    var departureAirport :- AirportFromIcao(env, departureIcao);
    var arrivalAirport :- AirportFromIcao(env, arrivalIcao);
    var from := LatLon(departureAirport.latitude, departureAirport.longitude);
    var to := LatLon(arrivalAirport.latitude, arrivalAirport.longitude);
    var bearing := Bearing(env.trig, from, to);
    var distance := Distance(env.trig, from, to);
    assert Snapshot([]) == [];
    var flightRoute := AppendNode([], Leg(departureAirport.icao, bearing, distance));
    flightRoute := AppendNode(flightRoute, Leg(arrivalAirport.icao, 0.0, 0.0));
    assert Snapshot(flightRoute) == [Leg(departureAirport.icao, bearing, distance), Leg(arrivalAirport.icao, 0.0, 0.0)];
    return Ok(flightRoute);
  }

  /** prepareRouteObject: fills a list with new nodes, one per token; the list holds exactly the
      value `ResolveRoute` describes, or the method fails with the same error. */
  method PrepareRouteObject(env: Env, routeString: string) returns (r: Result<seq<RouteNode>>)
    ensures r.Ok? ==> ResolveRoute(env, routeString) == Ok(Snapshot(r.value))
    ensures r.Ok? ==> Distinct(r.value) && forall j :: 0 <= j < |r.value| ==> fresh(r.value[j])
    ensures r.Err? ==> ResolveRoute(env, routeString) == Err(r.error)
  {
    var points := RouteTokens(routeString);
    if |points| == 2 {
      r := PrepareAirportRoute(env, points[0], points[1]);
      return;
    }
    // With no token the loop does not run and points[points.length - 1] throws.
    if |points| == 0 {
      return Err(IndexOutOfBounds);
    }
    assert ResolveEach(p => LatLonOf(env, p), points) == Resolutions(env, points);
    var flightRoute :- ResolveLegs(env.trig, points, p => LatLonOf(env, p));
    var finalId := GetIdentifier(points[|points| - 1]);
    flightRoute := AppendNode(flightRoute, Leg(finalId, 0.0, 0.0));
    return Ok(flightRoute);
  }
}
