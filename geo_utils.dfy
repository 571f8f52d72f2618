/**
 * Coordinate validation and distance formatting (utils/geo_utils.py).
 *
 * The geodesic distance itself is computed by a foreign ellipsoidal routine; here it is a
 * parameter of type Distance about which nothing is assumed.
 */
module GeoUtils {
  import opened Wrappers

  /** A (latitude, longitude) pair in degrees. */
  datatype Coord = Coord(lat: real, lng: real)

  /** The distance, in kilometres, between two coordinate pairs. */
  type Distance = (Coord, Coord) -> real

  predicate InRange(x: real, lo: real, hi: real) {
    lo <= x && x <= hi
  }

  /**
   * Whether a latitude and a longitude are valid.  Each argument is the outcome of converting
   * the caller's value to a float; None stands for a conversion that raised, which the source
   * answers with false rather than an error.
   */
  function ValidateCoordinates(lat: Option<real>, lng: Option<real>): (ok: bool)
    ensures ok <==> lat.Some? && lng.Some?
                    && -90.0 <= lat.value <= 90.0 && -180.0 <= lng.value <= 180.0
  {
    match (lat, lng)
    case (Some(a), Some(b)) => InRange(a, -90.0, 90.0) && InRange(b, -180.0, 180.0)
    case _ => false
  }

  /** The least integer not below x. */
  function Ceil(x: real): (n: int)
    ensures (n - 1) as real < x <= n as real
  {
    -((-x).Floor)
  }

  /** The two shapes a formatted distance takes: whole metres, or kilometres shown to 0.1. */
  datatype DistanceLabel = Metres(metres: int) | Kilometres(km: real)

  /** Chooses the unit for a distance given in kilometres. */
  function FormatDistance(distanceKm: real): (shown: DistanceLabel)
    ensures shown.Metres? <==> distanceKm < 1.0
    ensures shown.Metres? ==> (shown.metres - 1) as real < distanceKm * 1000.0 <= shown.metres as real
    ensures shown.Kilometres? ==> shown.km == distanceKm
  {
    if distanceKm < 1.0 then Metres(Ceil(distanceKm * 1000.0)) else Kilometres(distanceKm)
  }

  /** A distance below one kilometre is shown as between 0 and 1000 metres. */
  lemma MetreLabelBounds(distanceKm: real)
    requires 0.0 <= distanceKm < 1.0
    ensures FormatDistance(distanceKm).Metres?
    ensures 0 <= FormatDistance(distanceKm).metres <= 1000
  {
  }
}
