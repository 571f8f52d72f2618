/**
 * The browser side of the route form (static/js/script.js): the check run before the form is
 * submitted, and the replacement of the waypoint list by the waypoints of an imported file.
 *
 * A form field is represented by what parseFloat reads from it: None stands for NaN.  The DOM
 * container of waypoint items is the field `container` of a WaypointForm object, which the
 * handlers clear and append to in place.
 */
module FormScript {
  import opened Wrappers
  import opened GeoUtils
  import opened RouteOptimizer

  /** One waypoint item of the form: its name and what parseFloat reads from its coordinate
      fields. */
  datatype WaypointItem = WaypointItem(name: string, lat: Option<real>, lng: Option<real>)

  /** The messages the submit check shows; each one also stops the submission. */
  datatype Alert = InvalidStartAlert | NoWaypointAlert | NoValidWaypointAlert

  /** Neither field of the item reads as NaN, and both are in range. */
  predicate ItemIsValid(item: WaypointItem) {
    ValidateCoordinates(item.lat, item.lng)
  }

  predicate SomeItemIsValid(items: seq<WaypointItem>) {
    exists k :: 0 <= k < |items| && ItemIsValid(items[k])
  }

  /**
   * The submit listener.  The start is checked first, then the number of items, then whether
   * some item is valid; the first failing check stops the submission and shows its alert, so at
   * most one alert is shown.  The ghost result `examined` counts the items the search loop
   * looked at: it stops at the first valid item.
   */
  method OnSubmit(startLat: Option<real>, startLng: Option<real>, items: seq<WaypointItem>)
    returns (prevented: bool, alerts: seq<Alert>, ghost examined: nat)
    ensures |alerts| <= 1
    ensures prevented <==> |alerts| == 1
    ensures !prevented <==> ValidateCoordinates(startLat, startLng) && SomeItemIsValid(items)
    ensures alerts == [InvalidStartAlert] <==> !ValidateCoordinates(startLat, startLng)
    ensures alerts == [NoWaypointAlert] <==> ValidateCoordinates(startLat, startLng) && items == []
    ensures alerts == [NoValidWaypointAlert] <==>
              ValidateCoordinates(startLat, startLng) && items != [] && !SomeItemIsValid(items)
    ensures examined <= |items|
    ensures forall k :: 0 <= k < examined - 1 ==> !ItemIsValid(items[k])
    ensures !prevented ==> 0 < examined && ItemIsValid(items[examined - 1])
  {
    prevented, alerts, examined := false, [], 0;
    if !ValidateCoordinates(startLat, startLng) {
      prevented := true;
      alerts := alerts + [InvalidStartAlert];
      return;
    }
    if |items| == 0 {
      prevented := true;
      alerts := alerts + [NoWaypointAlert];
      assert alerts[0] != InvalidStartAlert;
      return;
    }
    var hasValidWaypoint := false;
    var i := 0;
    while i < |items|
      invariant 0 <= i <= |items|
      invariant !hasValidWaypoint
      invariant forall k :: 0 <= k < i ==> !ItemIsValid(items[k])
    {
      examined := i + 1;
      if ValidateCoordinates(items[i].lat, items[i].lng) {
        hasValidWaypoint := true;
        break;
      }
      i := i + 1;
    }
    if !hasValidWaypoint {
      examined := |items|;
      prevented := true;
      alerts := alerts + [NoValidWaypointAlert];
      assert alerts[0] != InvalidStartAlert;
    }
  }

  /** The body of the server's answer to an upload: an error text, a waypoint list, or both
      absent. */
  datatype UploadResponse = UploadResponse(error: Option<string>, waypoints: Option<seq<Point>>)

  /** What the import dialog shows. */
  datatype ImportStatus =
    | NoStatus
    | ShowError(message: string)
    | ShowImported(count: nat)
    | ShowNoValidWaypoints
    | ShowRequestFailed

  /** JavaScript reads a missing or empty error text as false. */
  predicate ReportsError(response: UploadResponse) {
    response.error.Some? && response.error.value != ""
  }

  /** The answer replaces the waypoint list: no error and a non-empty waypoint list. */
  predicate ReplacesWaypoints(response: UploadResponse) {
    !ReportsError(response) && response.waypoints.Some? && |response.waypoints.value| > 0
  }

  /** The form item that addWaypoint creates for an imported point. */
  function ItemOf(p: Point): WaypointItem {
    WaypointItem(p.name, Some(p.lat), Some(p.lng))
  }

  function ItemsOf(points: seq<Point>): (items: seq<WaypointItem>)
    ensures |items| == |points|
  {
    seq(|points|, k requires 0 <= k < |points| => ItemOf(points[k]))
  }

  /** The item addWaypoint creates when called without values: both coordinates read as NaN. */
  const EmptyItem: WaypointItem := WaypointItem("", None, None)

  /**
   * Importing valid points yields items the submit check accepts: the server only sends points
   * that passed validate_coordinates, so after an import some waypoint item is valid.
   */
  lemma ImportedItemsAreValid(points: seq<Point>)
    requires points != []
    requires forall p :: p in points ==> ValidateCoordinates(Some(p.lat), Some(p.lng))
    ensures SomeItemIsValid(ItemsOf(points))
    ensures forall k :: 0 <= k < |points| ==> ItemIsValid(ItemsOf(points)[k])
  {
    assert points[0] in points;
    assert ItemIsValid(ItemsOf(points)[0]);
  }

  class WaypointForm {
    /** The waypoint items of the container, in display order. */
    var container: seq<WaypointItem>
    /** The message shown in the import dialog. */
    var status: ImportStatus

    /** Page load: an empty container receives one empty item. */
    constructor (rendered: seq<WaypointItem>)
      ensures container == if rendered == [] then [EmptyItem] else rendered
      ensures status == NoStatus
    {
      container := rendered;
      status := NoStatus;
      if |rendered| == 0 {
        container := container + [EmptyItem];
      }
    }

    /** addWaypoint: appends one item with the given values. */
    method AddWaypoint(name: string, lat: Option<real>, lng: Option<real>)
      modifies this
      ensures container == old(container) + [WaypointItem(name, lat, lng)]
      ensures status == old(status)
    {
      container := container + [WaypointItem(name, lat, lng)];
    }

    /**
     * The handler of the upload answer.  An error is shown as it is; a non-empty waypoint list
     * replaces the container's items by the imported ones in file order; anything else leaves
     * the container alone.  A failed request (None) shows a failure message.
     */
    method HandleUploadResponse(response: Option<UploadResponse>)
      modifies this
      ensures response.Some? && ReplacesWaypoints(response.value) ==>
        container == ItemsOf(response.value.waypoints.value)
        && status == ShowImported(|response.value.waypoints.value|)
      ensures !(response.Some? && ReplacesWaypoints(response.value)) ==>
        container == old(container)
      ensures response.None? ==> status == ShowRequestFailed
      ensures response.Some? && ReportsError(response.value) ==>
        status == ShowError(response.value.error.value)
      ensures response.Some? && !ReportsError(response.value) && !ReplacesWaypoints(response.value) ==>
        status == ShowNoValidWaypoints
    {
      if response.None? {
        status := ShowRequestFailed;
        return;
      }
      var data := response.value;
      if data.error.Some? && data.error.value != "" {
        status := ShowError(data.error.value);
      } else if data.waypoints.Some? && |data.waypoints.value| > 0 {
        var points := data.waypoints.value;
        container := [];
        var i := 0;
        while i < |points|
          invariant 0 <= i <= |points|
          invariant container == ItemsOf(points[..i])
        {
          AddWaypoint(points[i].name, Some(points[i].lat), Some(points[i].lng));
          assert ItemsOf(points[..i + 1]) == ItemsOf(points[..i]) + [ItemOf(points[i])];
          i := i + 1;
        }
        assert points[..i] == points;
        status := ShowImported(|points|);
      } else {
        status := ShowNoValidWaypoints;
      }
    }
  }
}
