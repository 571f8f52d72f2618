/**
 * The request handlers' own logic (routes/main.py): the upload file-name test, the filtering
 * of submitted and imported waypoints, the route computation pipeline with its marker colours
 * and total distance, the column check of an uploaded sheet, and the rebuilding of a saved
 * route.  Flask, pandas, folium and the database are outside the model: the handlers take the
 * values those libraries would have produced and return what they would have rendered.
 */
module MainRoutes {
  import opened Wrappers
  import opened GeoUtils
  import opened RouteOptimizer
  import opened Models

  // ---------------------------------------------------------------------------------------
  // Upload file names
  // ---------------------------------------------------------------------------------------

  const AllowedExtensions: set<string> := {"xlsx", "xls", "csv"}

  /** Lower-cases the ASCII capital letters and leaves every other character as it is. */
  function LowerChar(c: char): char {
    if 'A' <= c <= 'Z' then (c as int + 32) as char else c
  }

  function Lower(s: string): (r: string)
    ensures |r| == |s| && forall k :: 0 <= k < |s| ==> r[k] == LowerChar(s[k])
  {
    seq(|s|, k requires 0 <= k < |s| => LowerChar(s[k]))
  }

  /** No '.' stands in s after position k. */
  predicate NoDotAfter(s: string, k: int) {
    forall m :: 0 <= m < |s| && k < m ==> s[m] != '.'
  }

  /** The position of the last '.' in s, if there is one. */
  function LastDot(s: string): (r: Option<nat>)
    ensures r.None? <==> NoDotAfter(s, -1)
    ensures r.Some? ==> r.value < |s| && s[r.value] == '.' && NoDotAfter(s, r.value)
  {
    if s == [] then None
    else if s[|s| - 1] == '.' then Some(|s| - 1)
    else LastDot(s[..|s| - 1])
  }

  /** The name ends with a dot followed by text that lower-cases to e. */
  predicate EndsWithExtension(filename: string, e: string) {
    |e| < |filename| && filename[|filename| - |e| - 1] == '.'
    && Lower(filename[|filename| - |e|..]) == e
  }

  /** The dot in front of an allowed ending is the last dot: no extension holds a dot, and
      lower-casing makes none. */
  lemma ExtensionDotIsLast(filename: string, e: string)
    requires e in AllowedExtensions && EndsWithExtension(filename, e)
    ensures LastDot(filename) == Some(|filename| - |e| - 1)
  {
    var j := |filename| - |e| - 1;
    var rest := filename[j + 1..];
    assert forall m :: 0 <= m < |e| ==> e[m] != '.';
    forall m | j < m < |filename| ensures filename[m] != '.' {
      assert LowerChar(rest[m - j - 1]) == e[m - j - 1];
    }
    LastDotUnique(filename, j);
  }

  /** When the name has a last dot, the text after it is allowed exactly when the name has an
      allowed ending. */
  lemma LastDotExtensionAt(filename: string, k: nat)
    requires LastDot(filename) == Some(k)
    ensures Lower(filename[k + 1..]) in AllowedExtensions
            <==> exists e :: e in AllowedExtensions && EndsWithExtension(filename, e)
  {
    forall e | e in AllowedExtensions && EndsWithExtension(filename, e)
      ensures Lower(filename[k + 1..]) == e
    {
      ExtensionDotIsLast(filename, e);
    }
    var e := Lower(filename[k + 1..]);
    if e in AllowedExtensions {
      assert EndsWithExtension(filename, e);
    }
  }

  /** A name without a dot has no allowed ending. */
  lemma NoDotNoExtension(filename: string)
    requires NoDotAfter(filename, -1)
    ensures forall e :: e in AllowedExtensions ==> !EndsWithExtension(filename, e)
  {
    forall e | e in AllowedExtensions ensures !EndsWithExtension(filename, e) {
      if |e| < |filename| {
        assert filename[|filename| - |e| - 1] != '.';
      }
    }
  }

  /** allowed_file: the file name has a dot, and the text after the last one is an allowed
      extension once lower-cased; that is, the name ends with ".xlsx", ".xls" or ".csv" in any
      mix of case. */
  predicate AllowedFile(filename: string): (ok: bool)
    ensures ok <==> exists e :: e in AllowedExtensions && EndsWithExtension(filename, e)
  {
    match LastDot(filename)
    case None => NoDotNoExtension(filename); false
    case Some(k) => LastDotExtensionAt(filename, k); Lower(filename[k + 1..]) in AllowedExtensions
  }

  /** A dot after which no other dot follows is the last dot. */
  lemma LastDotUnique(s: string, k: nat)
    requires k < |s| && s[k] == '.' && NoDotAfter(s, k)
    ensures LastDot(s) == Some(k)
  {
    assert !NoDotAfter(s, -1);
  }

  /** A name without a dot is never accepted. */
  lemma AllowedFileNeedsDot(filename: string)
    requires '.' !in filename
    ensures !AllowedFile(filename)
  {
    forall m | 0 <= m < |filename| ensures filename[m] != '.' {
      assert filename[m] in filename;
    }
  }

  /** A name is accepted exactly when its text after its last dot, lower-cased, is an allowed
      extension. */
  lemma AllowedFileMeaning(filename: string)
    ensures AllowedFile(filename) <==>
      exists k :: 0 <= k < |filename| && filename[k] == '.' && NoDotAfter(filename, k)
                  && Lower(filename[k + 1..]) in AllowedExtensions
  {
    forall k | 0 <= k < |filename| && filename[k] == '.' && NoDotAfter(filename, k)
      ensures LastDot(filename) == Some(k)
    {
      LastDotUnique(filename, k);
    }
  }

  /** Appending "." and an extension that holds no dot: accepted exactly when the extension,
      lower-cased, is allowed; so "x." and "x.txt" are refused and "x.CSV" is accepted. */
  lemma AllowedFileWithExtension(stem: string, extension: string)
    requires '.' !in extension
    ensures AllowedFile(stem + "." + extension) <==> Lower(extension) in AllowedExtensions
  {
    var f := stem + "." + extension;
    assert f[|stem| + 1..] == extension;
    forall m | |stem| < m < |f| ensures f[m] != '.' {
      assert f[m] == extension[m - |stem| - 1];
    }
    LastDotUnique(f, |stem|);
  }

  /** The test ignores the case of ASCII letters. */
  lemma AllowedFileIgnoresCase(filename: string)
    ensures AllowedFile(Lower(filename)) == AllowedFile(filename)
  {
    var low := Lower(filename);
    forall e | e in AllowedExtensions
      ensures EndsWithExtension(low, e) <==> EndsWithExtension(filename, e)
    {
      if |e| < |filename| {
        var j := |filename| - |e| - 1;
        LowerTailOfLower(filename, j);
        assert low[j] == '.' <==> filename[j] == '.';
      }
    }
  }

  /** Lower-casing the tail of a lower-cased name changes nothing more. */
  lemma LowerTailOfLower(s: string, k: nat)
    requires k < |s|
    ensures Lower(Lower(s)[k + 1..]) == Lower(s[k + 1..])
  {
    var low := Lower(s);
    assert low[k + 1..] == Lower(s[k + 1..]);
  }

  // ---------------------------------------------------------------------------------------
  // Filtering rows into waypoints
  // ---------------------------------------------------------------------------------------

  /** The value of one row, as a list of zero or one element. */
  function Kept<T>(row: Option<T>): seq<T> {
    match row
    case Some(x) => [x]
    case None => []
  }

  /** The values of the kept rows, in row order. */
  function Collect<T>(rows: seq<Option<T>>): (kept: seq<T>)
    ensures |kept| <= |rows|
  {
    if rows == [] then [] else Kept(rows[0]) + Collect(rows[1..])
  }

  lemma {:induction false} CollectAppend<T>(a: seq<Option<T>>, b: seq<Option<T>>)
    ensures Collect(a + b) == Collect(a) + Collect(b)
  {
    if a != [] {
      assert (a + b)[0] == a[0];
      assert (a + b)[1..] == a[1..] + b;
      CollectAppend(a[1..], b);
    } else {
      assert a + b == b;
    }
  }

  lemma {:induction false} CollectMembers<T>(rows: seq<Option<T>>)
    ensures forall x :: x in Collect(rows) <==> Some(x) in rows
  {
    if rows != [] {
      CollectMembers(rows[1..]);
      assert rows == [rows[0]] + rows[1..];
    }
  }

  /** The point a row yields when its two coordinates converted and are in range. */
  function KeptPoint(name: string, lat: Option<real>, lng: Option<real>): (p: Option<Point>)
    ensures p.Some? <==> ValidateCoordinates(lat, lng)
    ensures p.Some? ==> p.value == Point(name, lat.value, lng.value)
  {
    if ValidateCoordinates(lat, lng) then Some(Point(name, lat.value, lng.value)) else None
  }

  /** The number a string of decimal digits stands for, most significant digit first. */
  function DecimalValue(digits: string): nat {
    if digits == [] then 0
    else
      var d := digits[|digits| - 1] as int - '0' as int;
      DecimalValue(digits[..|digits| - 1]) * 10 + (if 0 <= d <= 9 then d else 0)
  }

  /** The decimal digits of n, as str(n) writes them. */
  function NatToDecimal(n: nat): (digits: string)
    ensures |digits| >= 1 && forall k :: 0 <= k < |digits| ==> '0' <= digits[k] <= '9'
  {
    var last := ['0' + (n % 10) as char];
    if n < 10 then last else NatToDecimal(n / 10) + last
  }

  /** NatToDecimal writes n itself, with no leading zero except for 0. */
  lemma {:induction false} NatToDecimalValue(n: nat)
    ensures DecimalValue(NatToDecimal(n)) == n
    ensures n > 0 ==> NatToDecimal(n)[0] != '0'
  {
    var digits := NatToDecimal(n);
    if n >= 10 {
      NatToDecimalValue(n / 10);
      assert digits[..|digits| - 1] == NatToDecimal(n / 10);
    }
  }

  /** The name given to submitted row i when no name was submitted for it. */
  function DefaultName(i: nat): (name: string)
    ensures |name| > 6 && name[..6] == "Point "
    ensures forall k :: 6 <= k < |name| ==> '0' <= name[k] <= '9'
    ensures DecimalValue(name[6..]) == i + 1 && name[6] != '0'
  {
    NatToDecimalValue(i + 1);
    assert ("Point " + NatToDecimal(i + 1))[6..] == NatToDecimal(i + 1);
    "Point " + NatToDecimal(i + 1)
  }

  /**
   * What submitted row i yields.  lats[i] and lngs[i] are the float conversions of the
   * submitted texts (None when the conversion raised); a row with no longitude text raises
   * IndexError.  Both errors skip the row.
   */
  function FormRow(names: seq<string>, lats: seq<Option<real>>, lngs: seq<Option<real>>,
                   i: nat): (row: Option<Point>)
    requires i < |lats|
    ensures row.Some? <==> i < |lngs| && ValidateCoordinates(lats[i], lngs[i])
    ensures row.Some? ==> row.value.lat == lats[i].value && row.value.lng == lngs[i].value
    ensures row.Some? && i < |names| ==> row.value.name == names[i]
    ensures row.Some? && i >= |names| ==> row.value.name == DefaultName(i)
  {
    var name := if i < |names| then names[i] else DefaultName(i);
    if i < |lngs| then KeptPoint(name, lats[i], lngs[i]) else None
  }

  function FormRows(names: seq<string>, lats: seq<Option<real>>,
                    lngs: seq<Option<real>>): (rows: seq<Option<Point>>)
    ensures |rows| == |lats|
  {
    seq(|lats|, i requires 0 <= i < |lats| => FormRow(names, lats, lngs, i))
  }

  /** The waypoints the form filter keeps, in submitted order. */
  function FormWaypoints(names: seq<string>, lats: seq<Option<real>>,
                         lngs: seq<Option<real>>): seq<Point>
  {
    Collect(FormRows(names, lats, lngs))
  }

  /** A point is kept exactly when some submitted row yields it, and every kept point is valid. */
  lemma FormWaypointsMeaning(names: seq<string>, lats: seq<Option<real>>, lngs: seq<Option<real>>)
    ensures forall p :: p in FormWaypoints(names, lats, lngs) <==>
      exists i :: 0 <= i < |lats| && FormRow(names, lats, lngs, i) == Some(p)
    ensures forall p :: p in FormWaypoints(names, lats, lngs) ==>
      ValidateCoordinates(Some(p.lat), Some(p.lng))
    ensures |FormWaypoints(names, lats, lngs)| <= |lats|
  {
    var rows := FormRows(names, lats, lngs);
    CollectMembers(rows);
    forall p | p in FormWaypoints(names, lats, lngs)
      ensures exists i :: 0 <= i < |lats| && FormRow(names, lats, lngs, i) == Some(p)
    {
      var i :| 0 <= i < |rows| && rows[i] == Some(p);
      assert FormRow(names, lats, lngs, i) == Some(p);
    }
    forall p, i | 0 <= i < |lats| && FormRow(names, lats, lngs, i) == Some(p)
      ensures p in FormWaypoints(names, lats, lngs)
    {
      assert rows[i] == Some(p);
    }
  }

  /** The filter loop of calculate_route over the submitted rows. */
  method FilterFormWaypoints(names: seq<string>, lats: seq<Option<real>>, lngs: seq<Option<real>>)
    returns (waypoints: seq<Point>)
    ensures waypoints == FormWaypoints(names, lats, lngs)
  {
    ghost var rows := FormRows(names, lats, lngs);
    waypoints := [];
    var i := 0;
    while i < |lats|
      invariant 0 <= i <= |lats|
      invariant waypoints == Collect(rows[..i])
    {
      var name := if i < |names| then names[i] else DefaultName(i);
      if lats[i].Some? && i < |lngs| && lngs[i].Some? {
        var lat, lng := lats[i].value, lngs[i].value;
        if ValidateCoordinates(Some(lat), Some(lng)) {
          waypoints := waypoints + [Point(name, lat, lng)];
        }
      }
      assert rows[i] == FormRow(names, lats, lngs, i);
      assert rows[..i + 1] == rows[..i] + [rows[i]];
      CollectAppend(rows[..i], [rows[i]]);
      i := i + 1;
    }
    assert rows[..i] == rows;
  }

  /** One record of an uploaded sheet: str() of its name cell and the float conversions of
      its coordinate cells (None when the conversion raised). */
  datatype SheetRecord = SheetRecord(name: string, lat: Option<real>, lng: Option<real>)

  function SheetRows(records: seq<SheetRecord>): (rows: seq<Option<Point>>)
    ensures |rows| == |records|
  {
    seq(|records|, i requires 0 <= i < |records| =>
      KeptPoint(records[i].name, records[i].lat, records[i].lng))
  }

  /** The waypoints the upload filter keeps, in file order. */
  function SheetWaypoints(records: seq<SheetRecord>): seq<Point> {
    Collect(SheetRows(records))
  }

  /** A point is imported exactly when some record yields it; every imported point is valid. */
  lemma SheetWaypointsMeaning(records: seq<SheetRecord>)
    ensures forall p :: p in SheetWaypoints(records) <==>
      exists i :: 0 <= i < |records| && ValidateCoordinates(records[i].lat, records[i].lng)
                  && p == Point(records[i].name, records[i].lat.value, records[i].lng.value)
    ensures forall p :: p in SheetWaypoints(records) ==> ValidateCoordinates(Some(p.lat), Some(p.lng))
  {
    var rows := SheetRows(records);
    CollectMembers(rows);
    forall p | p in SheetWaypoints(records)
      ensures exists i :: 0 <= i < |records| && ValidateCoordinates(records[i].lat, records[i].lng)
                  && p == Point(records[i].name, records[i].lat.value, records[i].lng.value)
    {
      var i :| 0 <= i < |rows| && rows[i] == Some(p);
    }
    forall p, i | 0 <= i < |records| && ValidateCoordinates(records[i].lat, records[i].lng)
                  && p == Point(records[i].name, records[i].lat.value, records[i].lng.value)
      ensures p in SheetWaypoints(records)
    {
      assert rows[i] == Some(p);
    }
  }

  /** The filter loop of upload_excel over the sheet's records. */
  method FilterSheetRecords(records: seq<SheetRecord>) returns (valid: seq<Point>)
    ensures valid == SheetWaypoints(records)
  {
    ghost var rows := SheetRows(records);
    valid := [];
    var i := 0;
    while i < |records|
      invariant 0 <= i <= |records|
      invariant valid == Collect(rows[..i])
    {
      var record := records[i];
      if record.lat.Some? && record.lng.Some? {
        if ValidateCoordinates(record.lat, record.lng) {
          valid := valid + [Point(record.name, record.lat.value, record.lng.value)];
        }
      }
      assert rows[..i + 1] == rows[..i] + [rows[i]];
      CollectAppend(rows[..i], [rows[i]]);
      i := i + 1;
    }
    assert rows[..i] == rows;
  }

  // ---------------------------------------------------------------------------------------
  // Sheet columns
  // ---------------------------------------------------------------------------------------

  const RequiredColumns: seq<string> := ["name", "lat", "lng"]

  /** The columns of `wanted` that are not among `columns`, in the order of `wanted`. */
  function Absent(wanted: seq<string>, columns: set<string>): (absent: seq<string>)
    ensures forall c :: c in absent <==> c in wanted && c !in columns
    ensures absent == [] <==> (forall c :: c in wanted ==> c in columns)
  {
    if wanted == [] then []
    else (if wanted[0] in columns then [] else [wanted[0]]) + Absent(wanted[1..], columns)
  }

  /** The required columns absent from the sheet, in the order name, lat, lng. */
  function MissingColumns(columns: set<string>): (missing: seq<string>)
    ensures forall c :: c in missing <==> c in RequiredColumns && c !in columns
    ensures missing == [] <==> "name" in columns && "lat" in columns && "lng" in columns
  {
    Absent(RequiredColumns, columns)
  }

  /** For every sheet, the missing columns are listed in the order name, lat, lng. */
  lemma MissingColumnsOrder(columns: set<string>)
    ensures MissingColumns(columns) ==
              (if "name" in columns then [] else ["name"])
              + (if "lat" in columns then [] else ["lat"])
              + (if "lng" in columns then [] else ["lng"])
  {
    assert RequiredColumns[1..] == ["lat", "lng"];
    assert RequiredColumns[1..][1..] == ["lng"];
    assert RequiredColumns[1..][1..][1..] == [];
    assert Absent(["lng"], columns) == (if "lng" in columns then [] else ["lng"]) + Absent([], columns);
    assert Absent(["lat", "lng"], columns) ==
             (if "lat" in columns then [] else ["lat"]) + Absent(["lng"], columns);
  }

  // ---------------------------------------------------------------------------------------
  // The computed route: markers and total distance
  // ---------------------------------------------------------------------------------------

  datatype MarkerColour = Green | Red | Blue

  /** The colour of the marker at position i of a route of the given length. */
  function MarkerColourAt(i: nat, count: nat): (colour: MarkerColour)
    ensures colour == Green <==> i == 0
    ensures colour == Red <==> 0 < i && i + 1 == count
    ensures colour == Blue <==> 0 < i && i + 1 != count
  {
    if i == 0 then Green else if i == count - 1 then Red else Blue
  }

  function MarkerColours(count: nat): (colours: seq<MarkerColour>)
    ensures |colours| == count
  {
    seq(count, i requires 0 <= i < count => MarkerColourAt(i, count))
  }

  function Blues(m: nat): seq<MarkerColour> {
    seq(m, _ => Blue)
  }

  lemma {:induction false} BluesCount(m: nat)
    ensures multiset(Blues(m))[Blue] == m
    ensures multiset(Blues(m))[Green] == 0 && multiset(Blues(m))[Red] == 0
  {
    if m > 0 {
      BluesCount(m - 1);
      assert Blues(m) == Blues(m - 1) + [Blue];
    }
  }

  /**
   * A route has one green marker (its first point) when it is not empty, one red marker (its
   * last point) when it has two points or more, and blue markers everywhere else.
   */
  lemma MarkerColoursShape(count: nat)
    ensures count >= 1 ==> MarkerColours(count)[0] == Green
    ensures count >= 2 ==> MarkerColours(count)[count - 1] == Red
    ensures forall i :: 0 < i < count - 1 ==> MarkerColours(count)[i] == Blue
    ensures multiset(MarkerColours(count))[Green] == if count >= 1 then 1 else 0
    ensures multiset(MarkerColours(count))[Red] == if count >= 2 then 1 else 0
    ensures multiset(MarkerColours(count))[Blue] == if count >= 2 then count - 2 else 0
  {
    var colours := MarkerColours(count);
    if count == 1 {
      assert colours == [Green];
    } else if count >= 2 {
      BluesCount(count - 2);
      assert colours == [Green] + Blues(count - 2) + [Red];
    }
  }

  /** The length of leg i of a route: from point i to point i + 1. */
  function Leg(route: seq<Point>, dist: Distance, i: nat): real
    requires i + 1 < |route|
  {
    dist(route[i].Position(), route[i + 1].Position())
  }

  /** The sum of the legs between consecutive points, added up from the first leg on. */
  function PathLength(route: seq<Point>, dist: Distance): real {
    if |route| <= 1 then 0.0
    else PathLength(route[..|route| - 1], dist) + Leg(route, dist, |route| - 2)
  }

  /** Splitting off the first leg: the same sum read from the front. */
  lemma {:induction false} PathLengthFromFront(route: seq<Point>, dist: Distance)
    requires |route| >= 2
    ensures PathLength(route, dist) == Leg(route, dist, 0) + PathLength(route[1..], dist)
  {
    if |route| > 2 {
      var init := route[..|route| - 1];
      PathLengthFromFront(init, dist);
      assert init[1..] == route[1..][..|route[1..]| - 1];
    }
  }

  /** With distances that are never negative, a route's length is not negative either. */
  lemma {:induction false} PathLengthNonNegative(route: seq<Point>, dist: Distance)
    requires forall a, b :: dist(a, b) >= 0.0
    ensures PathLength(route, dist) >= 0.0
  {
    if |route| > 1 {
      PathLengthNonNegative(route[..|route| - 1], dist);
    }
  }

  /** The accumulation loop of calculate_route. */
  method TotalDistance(route: seq<Point>, dist: Distance) returns (total: real)
    ensures total == PathLength(route, dist)
    ensures |route| <= 1 ==> total == 0.0
  {
    total := 0.0;
    var i := 0;
    while i + 1 < |route|
      invariant route == [] ==> i == 0 && total == 0.0
      invariant route != [] ==> i < |route| && total == PathLength(route[..i + 1], dist)
    {
      var leg := dist(route[i].Position(), route[i + 1].Position());
      total := total + leg;
      assert route[..i + 2][..i + 1] == route[..i + 1];
      i := i + 1;
    }
    assert route != [] ==> route[..i + 1] == route;
  }

  // ---------------------------------------------------------------------------------------
  // calculate_route
  // ---------------------------------------------------------------------------------------

  /**
   * The submitted form: the float conversions of the start fields (a missing field reads as 0;
   * None when the conversion raised) and the three waypoint lists.  A start field that converts
   * to NaN or an infinity ("nan", "inf") does not raise: it is given as a Some whose value is
   * out of range, so that it takes the invalid-start branch as in the source.
   */
  datatype RouteForm = RouteForm(startLat: Option<real>, startLng: Option<real>,
                                 names: seq<string>, lats: seq<Option<real>>,
                                 lngs: seq<Option<real>>)

  /** How calculate_route ends when it does not render a map: an exception caught by the
      handler, an invalid start, or no valid waypoint. */
  datatype RouteError = RequestFailed | InvalidStart | NoValidWaypoint

  /** What the map page shows: the route, the colour of each marker and the total distance. */
  datatype RouteView = RouteView(route: seq<Point>, colours: seq<MarkerColour>, totalDistance: real)

  const StartName: string := "Départ"

  function StartPoint(form: RouteForm): Point
    requires form.startLat.Some? && form.startLng.Some?
  {
    Point(StartName, form.startLat.value, form.startLng.value)
  }

  function Waypoints(form: RouteForm): seq<Point> {
    FormWaypoints(form.names, form.lats, form.lngs)
  }

  /** The start converted and is in range. */
  predicate StartIsValid(form: RouteForm) {
    ValidateCoordinates(form.startLat, form.startLng)
  }

  /**
   * calculate_route: validate the start, filter the waypoints, call the optimizer only when a
   * valid waypoint remains (with the start named 'Départ' at the submitted coordinates), then
   * colour the markers and add up the legs.  An index the heuristic returns outside the points,
   * or an empty route (whose last point the map link reads), raises and is caught.
   */
  method CalculateRoute(form: RouteForm, dist: Distance, tsp: TspSolver)
    returns (outcome: Result<RouteView, RouteError>)
    ensures form.startLat.None? || form.startLng.None? ==> outcome == Failure(RequestFailed)
    ensures form.startLat.Some? && form.startLng.Some? && !StartIsValid(form) ==>
              outcome == Failure(InvalidStart)
    ensures StartIsValid(form) && Waypoints(form) == [] ==> outcome == Failure(NoValidWaypoint)
    ensures StartIsValid(form) && Waypoints(form) != [] ==>
      match OptimizedRoute(StartPoint(form), Waypoints(form), dist, tsp)
      case None => outcome == Failure(RequestFailed)
      case Some(route) =>
        outcome == if route == [] then Failure(RequestFailed)
                   else Success(RouteView(route, MarkerColours(|route|), PathLength(route, dist)))
    ensures StartIsValid(form) && Waypoints(form) != []
            && SolverGivesPermutation(StartPoint(form), Waypoints(form), dist, tsp) ==>
      outcome.Success?
      && multiset(outcome.value.route) == multiset([StartPoint(form)] + Waypoints(form))
  {
    if form.startLat.None? || form.startLng.None? {
      return Failure(RequestFailed);
    }
    if !ValidateCoordinates(form.startLat, form.startLng) {
      return Failure(InvalidStart);
    }
    var waypoints := FilterFormWaypoints(form.names, form.lats, form.lngs);
    if |waypoints| < 1 {
      return Failure(NoValidWaypoint);
    }
    var start := Point(StartName, form.startLat.value, form.startLng.value);
    assert start == StartPoint(form) && waypoints == Waypoints(form);
    var optimized := OptimizeRoute(start, waypoints, dist, tsp);
    if optimized.None? {
      return Failure(RequestFailed);
    }
    var route := optimized.value;
    var colours := seq(|route|, i requires 0 <= i < |route| => MarkerColourAt(i, |route|));
    if route == [] {
      return Failure(RequestFailed);
    }
    var total := TotalDistance(route, dist);
    outcome := Success(RouteView(route, colours, total));
  }

  // ---------------------------------------------------------------------------------------
  // upload_excel
  // ---------------------------------------------------------------------------------------

  /** A sheet as the reader returns it: its column names and its records. */
  datatype Sheet = Sheet(columns: set<string>, records: seq<SheetRecord>)

  /** An uploaded file: its name and what reading it gave (None when the reader raised). */
  datatype UploadedFile = UploadedFile(filename: string, content: Option<Sheet>)

  datatype UploadOutcome =
    | NoFileSelected
    | InvalidFileType
    | ColumnsMissing(missing: seq<string>)
    | ProcessingFailed
    | Imported(waypoints: seq<Point>)

  /**
   * upload_excel: no file or an empty name, then the extension test, then the reader, then the
   * column check; a file that passes all of them imports its valid records in file order.
   */
  method UploadExcel(file: Option<UploadedFile>) returns (outcome: UploadOutcome)
    ensures file.None? || file.value.filename == "" ==> outcome == NoFileSelected
    ensures file.Some? && file.value.filename != "" && !AllowedFile(file.value.filename) ==>
              outcome == InvalidFileType
    ensures file.Some? && AllowedFile(file.value.filename) && file.value.content.None? ==>
              outcome == ProcessingFailed
    ensures file.Some? && AllowedFile(file.value.filename) && file.value.content.Some? ==>
      var sheet := file.value.content.value;
      outcome == if MissingColumns(sheet.columns) != [] then ColumnsMissing(MissingColumns(sheet.columns))
                 else Imported(SheetWaypoints(sheet.records))
    ensures outcome.ColumnsMissing? ==> outcome.missing != []
    ensures outcome.Imported? ==>
      forall p :: p in outcome.waypoints ==> ValidateCoordinates(Some(p.lat), Some(p.lng))
  {
    if file.None? || file.value.filename == "" {
      return NoFileSelected;
    }
    if !AllowedFile(file.value.filename) {
      return InvalidFileType;
    }
    if file.value.content.None? {
      return ProcessingFailed;
    }
    var sheet := file.value.content.value;
    var missing := MissingColumns(sheet.columns);
    if missing != [] {
      return ColumnsMissing(missing);
    }
    var valid := FilterSheetRecords(sheet.records);
    SheetWaypointsMeaning(sheet.records);
    outcome := Imported(valid);
  }

  // ---------------------------------------------------------------------------------------
  // view_route
  // ---------------------------------------------------------------------------------------

  datatype SavedRoute = SavedRoute(name: string, ownerId: int, startPoint: Point,
                                   waypoints: seq<Point>, totalDistance: Option<real>)

  /** The owner and administrators may see or delete a saved route; nobody else may. */
  predicate MayAccessRoute(saved: SavedRoute, viewer: Account)
    ensures viewer.IsAdmin() ==> MayAccessRoute(saved, viewer)
    ensures !viewer.IsAdmin() ==> (MayAccessRoute(saved, viewer) <==> saved.ownerId == viewer.id)
  {
    !(saved.ownerId != viewer.id && !viewer.IsAdmin())
  }

  /** The route shown for a saved record: its start point followed by its waypoints. */
  function RebuildRoute(saved: SavedRoute): (route: seq<Point>)
    ensures |route| == |saved.waypoints| + 1
  {
    AllPoints(saved.startPoint, saved.waypoints)
  }

  /** Saving a route as its first point and the rest, then rebuilding it, gives it back. */
  lemma RebuildRouteRoundTrip(route: seq<Point>, name: string, owner: int, total: Option<real>)
    requires route != []
    ensures RebuildRoute(SavedRoute(name, owner, route[0], route[1..], total)) == route
  {
    assert [route[0]] + route[1..] == route;
  }
}
