# Route planner core, modelled in Dafny

This project models the logic of a small web route planner. A user submits a start point and
waypoints, typed into a form or imported from a spreadsheet. The server keeps the valid
waypoints and puts the start point in front of them. It builds the complete graph of pairwise
geodesic distances and asks a travelling-salesman heuristic for an open path from node 0. It
then maps the returned node indices back to points, colours the map markers and adds up the
total distance.

Files and modules, one per source file:

- `wrappers.dfy` (`Wrappers`): `Option` and `Result`.
- `geo_utils.dfy` (`GeoUtils`): coordinate validation, and the choice between metres and
  kilometres when a distance is shown (utils/geo_utils.py).
- `route_optimizer.dfy` (`RouteOptimizer`): `optimize_route` (utils/route_optimizer.py). The
  loops that build the graph are the method `BuildGraph`, proved equal to the specification
  `CompleteGraph`. The remapping comprehension is `Remap`.
- `models.dfy` (`Models`): `is_admin` and `has_valid_access` (models.py).
- `main_routes.dfy` (`MainRoutes`): from routes/main.py, the helper `allowed_file`, the two
  waypoint filter loops, the `calculate_route` and `upload_excel` pipelines, the marker colours,
  the total-distance loop and the rebuilding of a saved route.
- `form_script.dfy` (`FormScript`): the submit check of static/js/script.js, and the class
  `WaypointForm`, whose `container` field is the list of waypoint items that the import handler
  clears and refills.

Foreign code is passed in as parameters:

- The geodesic distance is a function `Distance = (Coord, Coord) -> real`. Nothing is assumed
  about it.
- The heuristic is a function `TspSolver = Graph -> Option<seq<nat>>`. `None` is a heuristic
  that raises; calculate_route turns that into its catch-all failure (routes/main.py:144-147).
- A float conversion (`float()` in Python, `parseFloat` in JavaScript) is an `Option<real>`.
  In the waypoint filters and in the browser, `None` stands both for a conversion that raised
  and for NaN: there both end the same way (the row is skipped, or the item is invalid).
  For calculate_route's start fields the two differ: a conversion that raises reaches the
  catch-all, while "nan" or "inf" converts and then fails validation. Such a start field is
  therefore given as a `Some` whose value is out of range, which takes the invalid-start branch.
- The clock reading is an integer parameter `now`.

The heuristic's promise is a permutation of the node indices. It appears only as the hypothesis
of the properties that need it: `IsIndexPermutation(path, N)`, meaning the path has the same
multiset as `0 .. N-1`. When that hypothesis holds, the optimized route is a permutation of
`[start] + waypoints`. When it does not, the model still says what happens: an index outside
the points raises `IndexError` in the comprehension, and that outcome is `None`.

Python lists and dictionaries are modelled as immutable values. So the caller's start point and
waypoint list cannot be changed by `optimize_route`, and `all_points` is a new list.

Three facts about the code that the model keeps:

- optimize_route has no step that moves node 0 to the front of the path. It only passes
  `source=0` to the heuristic (utils/route_optimizer.py:39), so the model does not promise that
  the route starts at the start point.
- optimize_route raises no coordinate or graph error of its own. Coordinates are filtered
  before it is called (routes/main.py:56-75).
- optimize_route short-circuits only on an empty waypoint list (utils/route_optimizer.py:16-17);
  a single waypoint goes through the heuristic.

## Model

| member | source | states |
|---|---|---|
| GeoUtils.ValidateCoordinates | utils/geo_utils.py:15-20 | true iff both values converted and -90 <= lat <= 90 and -180 <= lng <= 180, bounds inclusive; a failed conversion gives false, not an error |
| GeoUtils.FormatDistance | utils/geo_utils.py:45-48 | the metre branch is taken exactly when the distance is below 1 km; its number is the ceiling of distance * 1000; otherwise the kilometre value is the distance itself |
| GeoUtils.MetreLabelBounds | utils/geo_utils.py:46 | a distance in [0, 1) km is shown as a whole number of metres between 0 and 1000 |
| RouteOptimizer.AllPoints | utils/route_optimizer.py:23 | position 0 is the start point and positions 1..N-1 are the waypoints in input order |
| RouteOptimizer.CompleteGraphShape | utils/route_optimizer.py:26-35 | node i carries all_points[i] and the nodes are exactly 0..N-1; every pair i<j has exactly one edge, stored once and never from a node to itself; each weight is the distance between the two endpoint nodes' points |
| RouteOptimizer.EdgeCount | utils/route_optimizer.py:30-35 | the graph over N points has N*(N-1)/2 edges |
| RouteOptimizer.BuildGraph | utils/route_optimizer.py:20-35 | the node loop and the nested edge loop produce exactly the complete graph described by CompleteGraph |
| RouteOptimizer.Remap | utils/route_optimizer.py:42 | defined iff every index of the path names a point; then its length is the path's and element k is all_points[path[k]] |
| RouteOptimizer.RemapPermutation | utils/route_optimizer.py:39-42 | if the path is a permutation of 0..N-1, remapping succeeds and yields a permutation of the points: nothing dropped, nothing duplicated |
| RouteOptimizer.OptimizedRouteProperties | utils/route_optimizer.py:16-42 | no waypoints gives exactly [start]; otherwise a heuristic that raises makes it fail, and a returned path is followed index by index (failing exactly when an index is out of range); it is a permutation of [start] + waypoints when the path is a permutation |
| RouteOptimizer.OptimizeRoute | utils/route_optimizer.py:4-44 | returns [start] at once for an empty waypoint list; otherwise builds the graph, runs the heuristic (failing when it raises) and remaps; with a permutation path the result has N points and the multiset of [start] + waypoints |
| Models.Account.IsAdmin | models.py:36-37 | true iff the role is ADMIN |
| Models.Account.HasValidAccess | models.py:39-46 | an admin always has access; an inactive non-admin never does; an active non-admin without expiry always does; otherwise access holds iff now <= access_until |
| Models.AccessIsMonotone | models.py:46 | access valid at some instant is valid at every earlier instant |
| Models.AccessBoundaryIsInclusive | models.py:46 | the expiry instant itself still grants access and the next instant does not |
| MainRoutes.LastDot | routes/main.py:24 | the position of the last '.', absent iff the name has no '.'; no '.' follows it |
| MainRoutes.AllowedFile | routes/main.py:22-24 | a name is accepted iff it ends with a dot followed by text that lower-cases to xlsx, xls or csv |
| MainRoutes.AllowedFileNeedsDot | routes/main.py:24 | a file name without '.' is refused |
| MainRoutes.AllowedFileMeaning | routes/main.py:20-24 | a name is accepted iff the text after its last '.', lower-cased, is xlsx, xls or csv |
| MainRoutes.AllowedFileWithExtension | routes/main.py:20-24 | stem + "." + ext, with ext free of dots, is accepted iff lower(ext) is allowed; so "x." and "x.txt" are refused and "x.CSV" accepted |
| MainRoutes.AllowedFileIgnoresCase | routes/main.py:24 | lower-casing a name does not change the verdict |
| MainRoutes.KeptPoint | routes/main.py:62-67 | a point exists iff both coordinates converted and validate; it carries the given name and those coordinates |
| MainRoutes.NatToDecimalValue | routes/main.py:58 | the digits written for n stand for n and have no leading zero when n > 0, as str(n) writes them |
| MainRoutes.DefaultName | routes/main.py:58 | the name is "Point " followed by the decimal digits of i + 1, with no leading zero |
| MainRoutes.FormRow | routes/main.py:56-70 | a submitted row yields a point iff it has a longitude entry and both coordinates convert and validate; that point has the row's coordinates and its submitted name, or "Point {i+1}" when no name was submitted |
| MainRoutes.FormWaypointsMeaning | routes/main.py:56-70 | a point is kept iff some row yields it; every kept point is valid; no more points than rows |
| MainRoutes.FilterFormWaypoints | routes/main.py:50-70 | the loop keeps, in submitted order, exactly the points FormRow yields, skipping the rest |
| MainRoutes.SheetWaypointsMeaning | routes/main.py:196-206 | a point is imported iff some sheet record converts and validates and yields it; every imported point is valid |
| MainRoutes.FilterSheetRecords | routes/main.py:196-206 | the loop keeps, in file order, exactly the valid records as points |
| MainRoutes.Absent | routes/main.py:182-183 | the result holds exactly the wanted columns missing from the sheet; it is empty iff every wanted column is present |
| MainRoutes.MissingColumns | routes/main.py:182-183 | a column is reported iff it is required and absent from the sheet; nothing is reported iff name, lat and lng are all present |
| MainRoutes.MissingColumnsOrder | routes/main.py:182-183 | for every sheet, the missing columns are listed in the order name, lat, lng |
| MainRoutes.MarkerColourAt | routes/main.py:93-95 | green iff index 0; red iff a non-zero index that is the last one; blue otherwise |
| MainRoutes.MarkerColoursShape | routes/main.py:93-95 | the marker at index 0 is green, the one at the last index is red when that index is not 0, and all others are blue: one green, at most one red |
| MainRoutes.PathLengthFromFront | routes/main.py:122-126 | the total is the first leg plus the total of the rest: the sum over consecutive pairs |
| MainRoutes.PathLengthNonNegative | routes/main.py:122-126 | with non-negative distances the total is not negative |
| MainRoutes.TotalDistance | routes/main.py:122-126 | the accumulation loop returns the sum of the distances between consecutive route points, 0 for a route of at most one point |
| MainRoutes.CalculateRoute | routes/main.py:38-147 | an unparsable start fails; an invalid start is refused; with no valid waypoint the optimizer is not called; otherwise it is called with 'Départ' at the submitted coordinates and the filtered waypoints; a heuristic that raises, an index outside the points or an empty route ends in the catch-all failure; the page shows that route, its marker colours and its total; with a permutation path the route is a permutation of start + waypoints |
| MainRoutes.UploadExcel | routes/main.py:151-230 | no file or an empty name, then a refused extension, then a reader failure, then missing columns, each stops the upload with its own outcome; otherwise the valid records are imported in file order, all of them valid |
| MainRoutes.MayAccessRoute | routes/main.py:277 | an admin may open any saved route; anyone else only their own |
| MainRoutes.RebuildRoute | routes/main.py:286 | the rebuilt route is the start point followed by the saved waypoints, one point longer than the waypoints |
| MainRoutes.RebuildRouteRoundTrip | routes/main.py:282-286 | saving a route as its first point and the rest, then rebuilding it, gives the route back |
| FormScript.OnSubmit | static/js/script.js:174-216 | submission is blocked iff the start is NaN or out of range, or there is no item, or no item has valid coordinates; the checks run in that order and at most one alert is shown; the search stops at the first valid item |
| FormScript.ImportedItemsAreValid | static/js/script.js:105-112 | items made from imported points, all of which passed validation, make the submit check find a valid waypoint |
| FormScript.WaypointForm.constructor | static/js/script.js:166-169 | an empty container receives one empty item on page load |
| FormScript.WaypointForm.AddWaypoint | static/js/script.js:147-164 | one item with the given values is appended to the container |
| FormScript.WaypointForm.HandleUploadResponse | static/js/script.js:98-133 | an error answer is shown and changes nothing; a non-empty waypoint list replaces the container by exactly the imported waypoints in file order; otherwise a warning is shown and the container is kept |

## Left out

- The travelling-salesman heuristic (networkx): it is a parameter. Its permutation promise is a
  hypothesis, and its tie-breaking and path quality are not modelled. Whether the installed
  networkx accepts `source=0` for its default method (utils/route_optimizer.py:39) depends on
  the library version and is not modelled; a call that raises is the heuristic's `None`.
- The geodesic distance (geopy): it is a parameter. Nothing about symmetry, zero distance or
  non-negativity is assumed, except as the explicit hypothesis of `PathLengthNonNegative`.
- Floating point: coordinates and distances are mathematical reals. Rounding in the sum, the
  `:.1f` formatting of kilometres and the text of numbers in the map link are not modelled.
- GeoUtils.FormatDistance: returns the chosen unit and number, not the formatted string.
- Float parsing: what `float()` and `parseFloat` accept is not modelled; only whether they
  produced a number.
- MainRoutes.LowerChar: lower-cases ASCII letters only, while Python's `lower()` covers all of
  Unicode. No non-ASCII character lower-cases to the letters of xlsx, xls or csv, so the verdict
  of `allowed_file` is the same.
- The Google Maps link, folium map rendering, Flask flashes, redirects, JSON rendering and the
  `logging.error` calls (routes/main.py:69, 145, 219): these are presentation only.
- MainRoutes.UploadExcel: returns the outcome, not the choice between a JSON answer and a
  redirect (routes/main.py:153, 209-216). The redirect branch hands the imported waypoints to
  the next page through the session (routes/main.py:214), and `index` takes them from there
  (routes/main.py:33). That hand-over is not modelled.
- FormScript.WaypointForm.HandleUploadResponse: takes the JSON answer of upload_excel as given.
  The request that script.js sends (static/js/script.js:93-96) carries neither an
  `X-Requested-With` header nor a JSON content type, so upload_excel as written answers it with
  a redirect, the JSON parse fails, and the handler's failure branch runs. That is the model's
  `None` answer; the replacement branch is reached only by a JSON answer.
- Reading the uploaded file (pandas), its temporary copy and its removal: the reader's result
  is a parameter `Option<Sheet>`. The reader is chosen by a case-sensitive ".csv" ending of the
  secured file name (routes/main.py:171-179), so "x.CSV" passes `AllowedFile` but is read as
  Excel. The choice of reader is not modelled; only its result is.
- `index`, `save_route`, `my_routes` and `delete_route` (database persistence). Only the owner
  or admin check of `view_route`/`delete_route` is modelled.
- routes/auth.py, routes/admin.py and app.py; `set_password` and `check_password`
  (werkzeug hashing).
- Browser I/O in script.js: geolocation, `fetch`, the file input check before sending, the
  delayed modal close and DOM template cloning. The import handler takes the server's answer,
  or `None` for a failed request.
