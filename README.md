# Navigation log model

A Dafny model of the navigation-log core of the FlightIQ navigation service. It covers
`NavigationServiceImpl` and the work behind `computeNavlog(route, aircraft, cruiseALT, TAS)`:

- The route string is split into tokens. A two-token route is two airports. Otherwise each
  token is a `(lat,lon)` coordinate, an ICAO airport code or a named fix.
- Each token is resolved to a position, and each node gets the great-circle bearing and
  distance to the next one. The last node gets `0.0, 0.0`.
- One average wind is taken from the winds aloft at the first and last node.
- For every node the bearing is wind-corrected and compass-deviation-corrected. The corrected
  course is read back out of the `"course-groundspeed"` reply string and written into the
  node in place. The leg time in minutes and the phase's fuel burn are then added to the
  totals and to the running lists.
- The report holds the truncated distance, the total ETE, the truncated fuel burn, the running
  ETE and fuel lists without their last entry, and the corrected route.

Layout, one module per file:

| file | module | contents |
|---|---|---|
| `outcome.dfy` | `Outcome` | `Result`/`Option`, and the exceptions the service throws as `NavError` values |
| `java_lang.dfy` | `JavaLang` | the Java semantics the code relies on: `(int)` casts, `Math.round`, truncating `/` and `%`, `%` on doubles, `Integer.parseInt`/`toString`, `String.split`, `replace`, `toUpperCase` |
| `entities.dfy` | `Entities` | the records (airport, fix, wind, aircraft, route leg) and the environment (repositories, trigonometry, `Double.parseDouble`) |
| `geometry.dfy` | `Geometry` | computeBearing, computeDistance, computeGroundSpeed |
| `course_corrector.dfy` | `CourseCorrector` | the deviation table and ComputeTrueCourseAndGroundsped with its two strings |
| `winds_aloft.dfy` | `WindsAloft` | getWindsAoft and the rounded average wind |
| `route_resolver.dfy` | `RouteResolver` | getFIXXFromId, getLatLon, getIdentifier, isICAO, and prepareRouteObject as a method building `RouteNode` objects |
| `navlog.dfy` | `Navlog` | formatTime, truncate, computeTimeForLeg, computeFuelBurnForLeg, and computeNavlog both as a value (`Navlog`) and as the in-place loop (`ComputeNavlog`, `FlyRoute`) proved equal to it |

The methods change state the way the source does. `RouteNode` is a class with a mutable
bearing. `PrepareRouteObject` allocates the nodes. `FlyRoute` overwrites each node's bearing
inside the loop and keeps the totals in local variables. Each method is proved against a
function: `ResolveRoute`, `StepsUpTo`/`TotalsOf`, `Navlog`. The lemmas state what the source
promises about those functions.

## Model

Every source cell refers to `Navigation/src/main/java/com/flightIQ/Navigation/Service/NavigationServiceImpl.java`.

| member | source | states |
|---|---|---|
| JavaLang.TruncToInt | Navigation/src/main/java/com/flightIQ/Navigation/Service/NavigationServiceImpl.java:352 | the `(int)` cast of a double rounds toward zero: a non-negative value is floored, a non-positive value is ceiled |
| JavaLang.JavaRound | Navigation/src/main/java/com/flightIQ/Navigation/Service/NavigationServiceImpl.java:335-337 | `Math.round` is within half a unit of its argument, with halves rounded up |
| JavaLang.ClampUnit | Navigation/src/main/java/com/flightIQ/Navigation/Service/NavigationServiceImpl.java:545 | the clamp keeps sinWCA in [-1, 1], leaves values already there unchanged, and sends values outside to the nearer bound |
| JavaLang.IntDiv | Navigation/src/main/java/com/flightIQ/Navigation/Service/NavigationServiceImpl.java:554 | Java int division truncates toward zero; for a negative dividend it is the negated quotient of the magnitude |
| JavaLang.IntRem | Navigation/src/main/java/com/flightIQ/Navigation/Service/NavigationServiceImpl.java:541 | Java int `%` takes the sign of the dividend |
| JavaLang.RealRem360 | Navigation/src/main/java/com/flightIQ/Navigation/Service/NavigationServiceImpl.java:521 | `% 360` on a double: a non-negative value lands in [0, 360), a value under 720 loses one turn |
| JavaLang.ParseInt | Navigation/src/main/java/com/flightIQ/Navigation/Service/NavigationServiceImpl.java:357-358 | `Integer.parseInt` yields only int-range values. Empty text, a character other than a digit (except a leading sign before digits), and a value out of int range are a NumberFormatException for that text. Plain, `-`-signed and `+`-signed digit strings read as their signed value when it is in int range, and are a NumberFormatException otherwise |
| JavaLang.ParseIntOfIntToString | Navigation/src/main/java/com/flightIQ/Navigation/Service/NavigationServiceImpl.java:339 | every int written by string concatenation is read back unchanged by `Integer.parseInt` |
| JavaLang.DigitsValueOfNatToDigits | Navigation/src/main/java/com/flightIQ/Navigation/Service/NavigationServiceImpl.java:560 | the decimal digits written for a whole number have that number as their value |
| JavaLang.SplitAll | Navigation/src/main/java/com/flightIQ/Navigation/Service/NavigationServiceImpl.java:435 | splitting yields one more piece than there are separators, and no piece contains a separator |
| JavaLang.SplitAllJoin | Navigation/src/main/java/com/flightIQ/Navigation/Service/NavigationServiceImpl.java:435 | joining the pieces with the separator gives back the text that was split |
| JavaLang.JoinSplitAll | Navigation/src/main/java/com/flightIQ/Navigation/Service/NavigationServiceImpl.java:435 | splitting a join of separator-free pieces gives back the pieces |
| JavaLang.DropTrailingEmpty | Navigation/src/main/java/com/flightIQ/Navigation/Service/NavigationServiceImpl.java:357-358 | `split` keeps a prefix of the pieces, ends on a non-empty piece, and drops only empty pieces |
| JavaLang.JavaSplitOfJoin | Navigation/src/main/java/com/flightIQ/Navigation/Service/NavigationServiceImpl.java:357-358 | `split` undoes a join of separator-free pieces whose last piece is not empty |
| JavaLang.RemoveChar | Navigation/src/main/java/com/flightIQ/Navigation/Service/NavigationServiceImpl.java:490 | `replace` of a character by nothing leaves no such character and never lengthens the text |
| JavaLang.RemoveCharConcat | Navigation/src/main/java/com/flightIQ/Navigation/Service/NavigationServiceImpl.java:490 | removing a character distributes over concatenation |
| JavaLang.AsciiUpper | Navigation/src/main/java/com/flightIQ/Navigation/Service/NavigationServiceImpl.java:583 | `toUpperCase` keeps the length and capital letters, and turns lower-case letters into their capitals |
| Geometry.BearingNormalized | Navigation/src/main/java/com/flightIQ/Navigation/Service/NavigationServiceImpl.java:516-522 | computeBearing lies in [0, 360): a negative atan2 angle gains one turn, a non-negative one is kept |
| Geometry.GroundSpeedWithinWind | Navigation/src/main/java/com/flightIQ/Navigation/Service/NavigationServiceImpl.java:567-576 | the ground speed is within the wind speed of the airspeed, and equals the airspeed in calm air |
| CourseCorrector.DeviationTableKeys | Navigation/src/main/java/com/flightIQ/Navigation/Service/NavigationServiceImpl.java:47-60 | the deviation table's keys are exactly the twelve multiples of 30 below 360 |
| CourseCorrector.DeviationBounds | Navigation/src/main/java/com/flightIQ/Navigation/Service/NavigationServiceImpl.java:47-60 | every deviation in the table is between -1 and 6 degrees |
| CourseCorrector.CompassBucketIsNearestKey | Navigation/src/main/java/com/flightIQ/Navigation/Service/NavigationServiceImpl.java:553-554 | for a course in [0, 360) the rounded key is a table key within 15 degrees of the course, and 345 and above wrap to 0 |
| CourseCorrector.CompassAdjustInRange | Navigation/src/main/java/com/flightIQ/Navigation/Service/NavigationServiceImpl.java:557-558 | the adjusted course is in [0, 360) and differs from the course plus its table deviation by whole turns |
| CourseCorrector.WindAngleIsSigned | Navigation/src/main/java/com/flightIQ/Navigation/Service/NavigationServiceImpl.java:541 | for a wind direction in [0, 360] and a course in [0, 360) the wind angle is in [-180, 180) and equals heading minus course up to whole turns |
| CourseCorrector.ClampedSinWca | Navigation/src/main/java/com/flightIQ/Navigation/Service/NavigationServiceImpl.java:544-545 | the clamped sine is in [-1, 1], is NaN exactly for 0/0, and is the plain quotient when that is already in range |
| CourseCorrector.CorrectInRange | Navigation/src/main/java/com/flightIQ/Navigation/Service/NavigationServiceImpl.java:539-560 | whatever the wind and the TAS, the corrected course is a compass direction in [0, 360), and the rounded ground speed is within the wind speed of the TAS |
| CourseCorrector.CorrectWithoutWind | Navigation/src/main/java/com/flightIQ/Navigation/Service/NavigationServiceImpl.java:539-560 | in calm air only the compass deviation changes the course, and the ground speed is the TAS |
| CourseCorrector.ParseWindsOfEncodeWinds | Navigation/src/main/java/com/flightIQ/Navigation/Service/NavigationServiceImpl.java:339 | the `direction@speed` wind text is read back by lines 536-537 as the same two ints |
| CourseCorrector.DecodeCourseOfEncoded | Navigation/src/main/java/com/flightIQ/Navigation/Service/NavigationServiceImpl.java:358 | field 0 of the `course-groundspeed` reply reads back as the course, whatever the ground speed |
| CourseCorrector.DecodeEncodedCorrection | Navigation/src/main/java/com/flightIQ/Navigation/Service/NavigationServiceImpl.java:356-358 | the reply reads back as the course and the rounded ground speed; a negative ground speed leaves field 1 empty, which `parseDouble` rejects |
| CourseCorrector.SplitOfReply | Navigation/src/main/java/com/flightIQ/Navigation/Service/NavigationServiceImpl.java:560 | a reply with a non-negative ground speed splits on "-" into exactly the course text and the speed digits |
| CourseCorrector.SplitOfNegativeReply | Navigation/src/main/java/com/flightIQ/Navigation/Service/NavigationServiceImpl.java:560 | a reply with a negative ground speed splits into the course text, an empty field and the speed digits |
| WindsAloft.GetWindsAloft | Navigation/src/main/java/com/flightIQ/Navigation/Service/NavigationServiceImpl.java:408-429 | the client's wind is returned when it has one; otherwise the default is 000@0 labelled with the requested ICAO code |
| WindsAloft.RoundedMeanIsHalfUp | Navigation/src/main/java/com/flightIQ/Navigation/Service/NavigationServiceImpl.java:335-337 | the averaged direction and speed are the mean rounded half up, and lie between the two readings |
| RouteResolver.GetIdentifier | Navigation/src/main/java/com/flightIQ/Navigation/Service/NavigationServiceImpl.java:501-509 | every branch labels a node with its own token |
| RouteResolver.FixxFromId | Navigation/src/main/java/com/flightIQ/Navigation/Service/NavigationServiceImpl.java:289-307 | a stored fix wins; otherwise only a parenthesised id can become an ad-hoc fix, which carries that id, and any other non-empty id is FixxNotFound (what the fallback yields is `FixxFallbackParses`) |
| RouteResolver.FixxFallbackParses | Navigation/src/main/java/com/flightIQ/Navigation/Service/NavigationServiceImpl.java:293-299 | an id `(a,b)` that is not stored, with no comma in its fields and a non-empty second field, becomes a fix carrying that id and the coordinates parsed from a and b, or fails with the first parse that fails |
| RouteResolver.LatLonResolutionOrder | Navigation/src/main/java/com/flightIQ/Navigation/Service/NavigationServiceImpl.java:488-499 | a coordinate token is never an ICAO code, an ICAO token is an airport lookup, and any other token is a fix lookup |
| RouteResolver.UnknownFixAlwaysFails | Navigation/src/main/java/com/flightIQ/Navigation/Service/NavigationServiceImpl.java:488-499 | a token in no repository and in no parenthesised form fails, with FixxNotFound when it does not start and end with parentheses |
| RouteResolver.StripParens | Navigation/src/main/java/com/flightIQ/Navigation/Service/NavigationServiceImpl.java:490 | removing the parentheses from `(a,b)` leaves `a,b` |
| RouteResolver.CoordinateTokenParses | Navigation/src/main/java/com/flightIQ/Navigation/Service/NavigationServiceImpl.java:489-491 | a `(lat,lon)` token with plain numeric parts resolves to the position those parts parse to |
| RouteResolver.AirportRoute | Navigation/src/main/java/com/flightIQ/Navigation/Service/NavigationServiceImpl.java:439-455 | a two-airport route is two nodes, the arrival carrying bearing and distance 0.0 |
| RouteResolver.ResolveRoute | Navigation/src/main/java/com/flightIQ/Navigation/Service/NavigationServiceImpl.java:434-473 | a resolved route has one node per token and ends on a node with bearing and distance 0.0 |
| RouteResolver.LegsUpToAll | Navigation/src/main/java/com/flightIQ/Navigation/Service/NavigationServiceImpl.java:457-466 | the legs are built if and only if every token up to k resolves, and leg i joins token i to token i+1 |
| RouteResolver.LegsUpToFailureSticks | Navigation/src/main/java/com/flightIQ/Navigation/Service/NavigationServiceImpl.java:457-466 | once a pass throws, later passes never run, and the first error is the one reported |
| RouteResolver.LegsUpToFailsAt | Navigation/src/main/java/com/flightIQ/Navigation/Service/NavigationServiceImpl.java:457-466 | the route fails with the error of the first leg that fails |
| RouteResolver.ResolveRouteSucceeds | Navigation/src/main/java/com/flightIQ/Navigation/Service/NavigationServiceImpl.java:434-473 | a route resolves if and only if it is one token, or two airports, or three or more tokens that all resolve |
| RouteResolver.ResolveRouteLabels | Navigation/src/main/java/com/flightIQ/Navigation/Service/NavigationServiceImpl.java:452-470 | each node is labelled with its token, except that a two-token route carries its airports' ICAO codes |
| RouteResolver.PassesThenLastLabels | Navigation/src/main/java/com/flightIQ/Navigation/Service/NavigationServiceImpl.java:457-470 | the loop's nodes followed by the final node give one node per token, each labelled with its token |
| RouteResolver.ResolveRouteGeometry | Navigation/src/main/java/com/flightIQ/Navigation/Service/NavigationServiceImpl.java:443-462 | every resolved bearing is in [0, 360) and every distance is non-negative |
| RouteResolver.LegsUpToLabelsAndBearings | Navigation/src/main/java/com/flightIQ/Navigation/Service/NavigationServiceImpl.java:457-466 | leg i is labelled with token i, and its bearing is a compass direction and its distance non-negative |
| RouteResolver.RouteOfTokens | Navigation/src/main/java/com/flightIQ/Navigation/Service/NavigationServiceImpl.java:435 | a route written as space-joined tokens is split back into those tokens and resolves to one node per token, labelled with it |
| RouteResolver.RouteNode.constructor | Navigation/src/main/java/com/flightIQ/Navigation/Service/NavigationServiceImpl.java:465 | a new node holds the given name, bearing and distance |
| RouteResolver.RouteNode.SetBearing | Navigation/src/main/java/com/flightIQ/Navigation/Service/NavigationServiceImpl.java:361 | setBearing changes the bearing and nothing else |
| RouteResolver.AppendNode | Navigation/src/main/java/com/flightIQ/Navigation/Service/NavigationServiceImpl.java:465 | `flightRoute.add(new RouteNode(...))` appends one fresh node holding the leg |
| RouteResolver.ResolveLegs | Navigation/src/main/java/com/flightIQ/Navigation/Service/NavigationServiceImpl.java:457-466 | the loop allocates fresh distinct nodes holding exactly the legs `LegsUpTo` describes, or fails with its error |
| RouteResolver.PrepareAirportRoute | Navigation/src/main/java/com/flightIQ/Navigation/Service/NavigationServiceImpl.java:439-455 | the two-airport branch allocates fresh nodes holding `AirportRoute`, or fails with its error |
| RouteResolver.PrepareRouteObject | Navigation/src/main/java/com/flightIQ/Navigation/Service/NavigationServiceImpl.java:434-473 | prepareRouteObject allocates fresh distinct nodes holding exactly `ResolveRoute` of the route text, or fails with the same error |
| Navlog.Truncate | Navigation/src/main/java/com/flightIQ/Navigation/Service/NavigationServiceImpl.java:400-402 | truncate cuts a value down to a whole number of hundredths, by less than 0.01 |
| Navlog.TruncateMonotone | Navigation/src/main/java/com/flightIQ/Navigation/Service/NavigationServiceImpl.java:400-402 | truncate never reverses the order of two values |
| Navlog.ClockOfHours | Navigation/src/main/java/com/flightIQ/Navigation/Service/NavigationServiceImpl.java:393-398 | for a non-negative time, formatTime's hours are the whole hours and its minutes are the whole minutes left over, in [0, 60) |
| Navlog.ParseIntOfPad2 | Navigation/src/main/java/com/flightIQ/Navigation/Service/NavigationServiceImpl.java:397 | `%02d` writes at least two characters with no colon, and they read back as the number |
| Navlog.ReadClockOfFormatTime | Navigation/src/main/java/com/flightIQ/Navigation/Service/NavigationServiceImpl.java:393-398 | the `HH:MM` text of a non-negative time reads back as its hours and minutes |
| Navlog.FormatEteOfMinutes | Navigation/src/main/java/com/flightIQ/Navigation/Service/NavigationServiceImpl.java:364-381 | a total in minutes shown through formatTime after converting to hours reads back as hours and minutes that together give the whole minutes |
| Navlog.EteAsWrittenShowsMinutesAsHours | Navigation/src/main/java/com/flightIQ/Navigation/Service/NavigationServiceImpl.java:377-381 | as written, a leg time from computeTimeForLeg is a count of minutes (it covers the leg at the ground speed per minute), and formatTime shows its whole part as hours: a 30 nm leg at 60 kt prints as "30:00" where "00:30" is meant |
| Navlog.FuelBurnAlongRoute | Navigation/src/main/java/com/flightIQ/Navigation/Service/NavigationServiceImpl.java:578-598 | every phase a route produces is a known leg type, and the burn is that phase's hourly rate over the leg time |
| Navlog.FuelBurnForLeg | Navigation/src/main/java/com/flightIQ/Navigation/Service/NavigationServiceImpl.java:583-594 | the only failure is IllegalArgumentException for an unknown leg type |
| Navlog.BurnIsRateTimesHours | Navigation/src/main/java/com/flightIQ/Navigation/Service/NavigationServiceImpl.java:585-591 | rate/60 times minutes is the hourly rate times the time in hours, and is non-negative for non-negative inputs |
| Navlog.TimeForLeg | Navigation/src/main/java/com/flightIQ/Navigation/Service/NavigationServiceImpl.java:600-604 | the leg time is finite exactly when the ground speed is non-zero |
| Navlog.TimeForLegCoversDistance | Navigation/src/main/java/com/flightIQ/Navigation/Service/NavigationServiceImpl.java:600-604 | the leg time in minutes, at the ground speed per minute, covers the leg distance |
| Navlog.ReadCorrectionOutcome | Navigation/src/main/java/com/flightIQ/Navigation/Service/NavigationServiceImpl.java:352-358 | a pass reads back the corrected compass course and the rounded ground speed, or fails on an empty speed field when that speed is negative |
| Navlog.LegFromReadingOutcome | Navigation/src/main/java/com/flightIQ/Navigation/Service/NavigationServiceImpl.java:363-366 | an unknown aircraft fails, a zero ground speed gives no finite time, and otherwise the leg time covers the distance and the burn is the phase rate over that time |
| Navlog.LegStepOutcome | Navigation/src/main/java/com/flightIQ/Navigation/Service/NavigationServiceImpl.java:348-366 | the whole pass over a node, from its bearing to its corrected course, time and fuel |
| Navlog.LegStepOfZeroDistance | Navigation/src/main/java/com/flightIQ/Navigation/Service/NavigationServiceImpl.java:363-366 | a pass over a zero-distance node costs no time and no fuel |
| Navlog.LegFromReadingOfZeroDistance | Navigation/src/main/java/com/flightIQ/Navigation/Service/NavigationServiceImpl.java:363-366 | a zero-distance leg with a usable reading costs no time and no fuel |
| Navlog.StepsUpToAll | Navigation/src/main/java/com/flightIQ/Navigation/Service/NavigationServiceImpl.java:347-379 | the loop gets through k nodes if and only if each of the first k passes succeeds, and outcome j is pass j over node j in its phase |
| Navlog.StepsFailureSticks | Navigation/src/main/java/com/flightIQ/Navigation/Service/NavigationServiceImpl.java:347-379 | once a pass throws, no later pass runs |
| Navlog.StepsFailAt | Navigation/src/main/java/com/flightIQ/Navigation/Service/NavigationServiceImpl.java:347-379 | the navlog fails with the error of the first node whose pass fails |
| Navlog.RunningFuelAt | Navigation/src/main/java/com/flightIQ/Navigation/Service/NavigationServiceImpl.java:320-376 | entry j of the running fuel list is the 1.5-gallon allowance plus the burn of legs 0 to j |
| Navlog.RunningEteAt | Navigation/src/main/java/com/flightIQ/Navigation/Service/NavigationServiceImpl.java:368-377 | entry j of the running ETE list shows the time of legs 0 to j |
| Navlog.FuelSumPrefixes | Navigation/src/main/java/com/flightIQ/Navigation/Service/NavigationServiceImpl.java:369 | with non-negative burns, a longer prefix of legs burns no less fuel |
| Navlog.RunningFuelNonDecreasing | Navigation/src/main/java/com/flightIQ/Navigation/Service/NavigationServiceImpl.java:369-376 | the running fuel never decreases, never drops below the allowance, and never exceeds the total |
| Navlog.ReportTotalsMatchLastEntry | Navigation/src/main/java/com/flightIQ/Navigation/Service/NavigationServiceImpl.java:381-390 | when the last pass adds nothing, the removed last entries were equal to the totals, so the report's totals equal the last running entries kept |
| Navlog.LastEntriesAreTotals | Navigation/src/main/java/com/flightIQ/Navigation/Service/NavigationServiceImpl.java:376-386 | when the last pass adds nothing, the last entry kept in each running list already holds the total |
| Navlog.ReportFuelNonDecreasing | Navigation/src/main/java/com/flightIQ/Navigation/Service/NavigationServiceImpl.java:386-390 | the reported running fuel never decreases, and each entry cut to hundredths is at most the reported total |
| Navlog.AccumulateLeg | Navigation/src/main/java/com/flightIQ/Navigation/Service/NavigationServiceImpl.java:368-377 | one pass's updates of the accumulators keep them equal to the sums and lists over the outcomes so far |
| Navlog.StepsUpToNext | Navigation/src/main/java/com/flightIQ/Navigation/Service/NavigationServiceImpl.java:347-379 | a successful pass extends the outcomes by its own outcome |
| Navlog.PartlyCorrectedNext | Navigation/src/main/java/com/flightIQ/Navigation/Service/NavigationServiceImpl.java:361 | correcting node i in place turns the route corrected up to i into the route corrected up to i+1 |
| Navlog.PartlyCorrectedAll | Navigation/src/main/java/com/flightIQ/Navigation/Service/NavigationServiceImpl.java:347-379 | after the last pass every node carries its corrected course |
| Navlog.SetNodeBearing | Navigation/src/main/java/com/flightIQ/Navigation/Service/NavigationServiceImpl.java:361 | `curr.setBearing(truecourse)` changes node i's bearing and nothing else in the route |
| Navlog.FlyNode | Navigation/src/main/java/com/flightIQ/Navigation/Service/NavigationServiceImpl.java:348-366 | one pass computes its node's outcome and, on success, writes the corrected course into that node alone |
| Navlog.FlyRoute | Navigation/src/main/java/com/flightIQ/Navigation/Service/NavigationServiceImpl.java:320-379 | the loop returns exactly the totals and running lists of the passes, and leaves every node carrying its corrected course; it fails with the first pass's error |
| Navlog.ComputeNavlog | Navigation/src/main/java/com/flightIQ/Navigation/Service/NavigationServiceImpl.java:309-391 | computeNavlog with its in-place node updates produces exactly the report `Navlog` defines, errors included |
| Navlog.NavlogFromNodes | Navigation/src/main/java/com/flightIQ/Navigation/Service/NavigationServiceImpl.java:327-390 | the work after the route is prepared produces exactly the report of the route's legs |
| Navlog.RouteContextOfWinds | Navigation/src/main/java/com/flightIQ/Navigation/Service/NavigationServiceImpl.java:327-339 | the wind every pass uses is the average wind of the first and last node of the resolved route at the cruise altitude |
| Navlog.AverageWinds | Navigation/src/main/java/com/flightIQ/Navigation/Service/NavigationServiceImpl.java:327-339 | the wind text is the `dir@speed` of the rounded means of the winds aloft at the two given nodes at the cruise altitude |
| Navlog.NavlogOfRouteSteps | Navigation/src/main/java/com/flightIQ/Navigation/Service/NavigationServiceImpl.java:347-390 | a failed pass fails the navlog, and otherwise the report is built from the passes' outcomes |
| Navlog.ReportOfTotals | Navigation/src/main/java/com/flightIQ/Navigation/Service/NavigationServiceImpl.java:381-390 | the returned text's parts are the truncated totals, the lists without their last entry, and the corrected route |
| Navlog.ReadCourseInRange | Navigation/src/main/java/com/flightIQ/Navigation/Service/NavigationServiceImpl.java:352-358 | a course read back from the reply is a compass direction in [0, 360) |
| Navlog.LegFromReadingKeepsReading | Navigation/src/main/java/com/flightIQ/Navigation/Service/NavigationServiceImpl.java:356-366 | the outcome of a pass carries the course and ground speed it read, and the node's own distance |
| Navlog.LegCourseInRange | Navigation/src/main/java/com/flightIQ/Navigation/Service/NavigationServiceImpl.java:358-361 | the course written into a node is a compass direction in [0, 360) |
| Navlog.LegFromReadingBurnNotNegative | Navigation/src/main/java/com/flightIQ/Navigation/Service/NavigationServiceImpl.java:364-366 | with non-negative burn rates, distance and ground speed, a pass burns no negative fuel |
| Navlog.LegBurnNotNegative | Navigation/src/main/java/com/flightIQ/Navigation/Service/NavigationServiceImpl.java:364-366 | with non-negative burn rates and distance, a successful pass burns no negative fuel |
| Navlog.NavlogRoute | Navigation/src/main/java/com/flightIQ/Navigation/Service/NavigationServiceImpl.java:309-391 | the reported route is the resolved route with the same names and distances, the running lists are one shorter, and every bearing is a whole-degree compass direction |
| Navlog.ReportRoute | Navigation/src/main/java/com/flightIQ/Navigation/Service/NavigationServiceImpl.java:361-390 | each reported node keeps its name and distance and carries its pass's corrected course |
| Navlog.StepsKeepCoursesInRange | Navigation/src/main/java/com/flightIQ/Navigation/Service/NavigationServiceImpl.java:352-361 | every pass over a node whose bearing is a compass direction yields a compass direction |
| Navlog.StepsCoursesInRange | Navigation/src/main/java/com/flightIQ/Navigation/Service/NavigationServiceImpl.java:347-361 | every course the loop writes is a compass direction |
| Navlog.NavlogIsReport | Navigation/src/main/java/com/flightIQ/Navigation/Service/NavigationServiceImpl.java:309-391 | a navlog is returned only when the route resolves, the altitude parses and every pass succeeds, and it is the report of those passes |
| Navlog.LastStepAddsNothing | Navigation/src/main/java/com/flightIQ/Navigation/Service/NavigationServiceImpl.java:468-470 | the pass over the final 0.0-distance node adds no time and no fuel |
| Navlog.StepsZeroDistanceIsFree | Navigation/src/main/java/com/flightIQ/Navigation/Service/NavigationServiceImpl.java:363-366 | every successful pass over a zero-distance node costs nothing |
| Navlog.StepsTotalsMatchLastEntry | Navigation/src/main/java/com/flightIQ/Navigation/Service/NavigationServiceImpl.java:381-390 | the report's totals equal the last running entries it keeps |
| Navlog.NavlogTotalsMatchLastEntry | Navigation/src/main/java/com/flightIQ/Navigation/Service/NavigationServiceImpl.java:381-390 | for every navlog, the total ETE and the truncated total fuel equal the last running ETE and running fuel entries reported |
| Navlog.NavlogFuelNonDecreasing | Navigation/src/main/java/com/flightIQ/Navigation/Service/NavigationServiceImpl.java:320-390 | with non-negative burn rates, a navlog's running fuel starts at the allowance or above, never decreases, and never exceeds the reported total |
| Navlog.StepsKeepDistance | Navigation/src/main/java/com/flightIQ/Navigation/Service/NavigationServiceImpl.java:363-370 | every successful pass adds the distance of the node it flew |
| Navlog.StepsDistanceSum | Navigation/src/main/java/com/flightIQ/Navigation/Service/NavigationServiceImpl.java:322-370 | after k passes the distance total is the sum of the first k nodes' distances |
| Navlog.NavlogDistance | Navigation/src/main/java/com/flightIQ/Navigation/Service/NavigationServiceImpl.java:322-390 | the reported distance is the sum of the resolved route's node distances, cut to hundredths |

## Left out

- Trigonometry: `Math.sin`, `cos`, `atan2`, `asin`, `sqrt` and `toRadians`/`toDegrees` are
  functions of the environment. Their ranges are stated once, as a hypothesis.
  `Double.parseDouble` is a parameter too, assumed to read plain whole numbers correctly.
- IEEE doubles are modelled as exact reals. There is no rounding, and infinity and NaN appear
  only where sinWCA is computed: with TAS 0, a non-zero quotient is an infinity that the clamp
  turns into -1 or 1, and 0/0 is NaN, which becomes 0 the way Java's `(int) NaN` does.
- The burn rates of an aircraft are taken to be reals. The `Aircraft` class is not part of this
  model. If its getters returned int, `getCLBFuelBurn() / 60` would truncate, and the model
  would not capture that.
- A zero ground speed, which gives Java an infinite or NaN leg time, is the error
  `NonFiniteLegTime` here.
- 32-bit int overflow is not modelled. Only `Integer.parseInt` enforces the int range.
- `String.split` is modelled for single-character separators that are not regex
  metacharacters. Those are the only ones the core uses.
- The regular expression `\(.*?,.*?\)` is modelled as "starts with `(`, ends with `)`, has a
  comma between".
- `toUpperCase` is modelled for ASCII letters only.
- The repositories, the winds-aloft client and the aircraft database are maps in the
  environment. Their own lookups are not part of this model.
- The returned text: the report is a record holding the parts joined at line 390. The
  `List.toString` and double-to-text rendering are not modelled.
- Logging (`System.out.println`) is left out.
- The HTTP-facing operations of the service (lines 115-258), `getAirportFromIDENT` and the
  `GetATISOFDestination` stub (lines 262-279) are outside the core.
- ComputeTrueCourseAndGroundsped is called twice per pass with the same arguments (lines
  356-358). It is pure, so the model computes it once.
- prepareRouteObject resolves each token twice, as `to` and again as the next `from`. The method
  `ResolveLegs` does the same. Its specification, the value `ResolveRoute`, reads every token's
  resolution once, ahead of its passes. The lookups have no side effects, so the result and the
  first error reported are the same.
- ComputeNavlog: on an error part way through the loop, the nodes already updated are not
  described by its postcondition. The source throws and the list is discarded.
- `cruiseALT` is parsed twice with the same text (lines 327 and 330). The model parses it once,
  which gives the same value or the same error.
- Navlog.RunningEte: the running ETE entries go through the corrected minutes-to-hours
  conversion (`FormatEte`), not through formatTime applied to minutes as line 377 does.
- Navlog.RunningEteAt: states the corrected running ETE entries, not those of line 377.
- Navlog.ComputeNavlog: its report carries the corrected ETE texts. Lines 377 and 381 apply
  formatTime to the minute total. The as-written texts are exhibited by
  `EteAsWrittenShowsMinutesAsHours`.
- Navlog.NavlogFromNodes: formats the total ETE with `FormatEte`, not with formatTime of the
  minute total as line 381 does. Line 377 is handled the same way.
- Navlog.ReportOfTotals: the total ETE in the report it states is `FormatEte` of the minutes,
  not line 381's formatTime of them.
- Navlog.FlyRoute: its running ETE list is the corrected one, not line 377's.
- JavaLang.ParseInt: accepts only the ASCII digits '0' to '9'. `Integer.parseInt` also accepts
  other Unicode decimal digits, through `Character.digit`. It is applied to user text at lines
  327, 330 and 357-358.

## Findings

| source | as written | input that shows it | evidently intended | confidence | as-written member | corrected member |
|---|---|---|---|---|---|---|
| Navigation/src/main/java/com/flightIQ/Navigation/Service/NavigationServiceImpl.java:364-381 | computeTimeForLeg returns minutes (distance over nautical miles per minute). They are summed into `totalETE` and passed to `formatTime(double totalHours)`, which prints them as hours. | one leg of 30 nm at 60 kt ground speed: 30 minutes, printed "30:00" | formatTime of the total in hours, printing "00:30" | not executed | Navlog.EteAsWrittenShowsMinutesAsHours | Navlog.FormatEteOfMinutes |
