/**
 * The values the CAP transformer reads and builds: GeoJSON features on the way in, and the
 * CAP 1.2 `area`, `info` and `alert` elements and the ATOM feed around them on the way out,
 * held as trees just before XML serialisation.
 */
module CapTypes {
  import opened Results

  /** A GeoJSON position `[lon, lat]`, each number as JavaScript's `String(number)` prints it. */
  type Point = seq<string>

  /** A LinearRing: the points of one polygon boundary, in order. */
  type Ring = seq<Point>

  /** A `geometry.type` other than the two the transformer accepts. */
  type OtherTypeName = s: string | s != "Polygon" && s != "MultiPolygon" witness "Point"

  /** `geometry.type` with its `coordinates`: a Polygon is a list of rings (outer ring first,
      then holes), a MultiPolygon a list of such polygons. Any other type keeps only its name. */
  datatype Geometry =
    | Polygon(rings: seq<Ring>)
    | MultiPolygon(polygons: seq<seq<Ring>>)
    | Other(typeName: OtherTypeName)

  /** One feature of the flooded-areas GeoJSON: its `properties` and its `geometry`. */
  datatype Feature = Feature(
    state: int,
    lastUpdated: string,
    levelName: string,
    parentName: string,
    geometry: Geometry)

  /** The CAP `severity` values this system emits, with the flood band each stands for. */
  datatype Severity = Unknown | Minor | Moderate | Severe {

    /** The CAP `severity` element text. */
    function Name(): string {
      match this
      case Unknown => "Unknown"
      case Minor => "Minor"
      case Moderate => "Moderate"
      case Severe => "Severe"
    }

    /** The phrase that describes the flood depth in the `description` element. */
    function LevelDescription(): string {
      match this
      case Unknown => "AN UNKNOWN LEVEL OF FLOODING - USE CAUTION -"
      case Minor => "FLOODING OF BETWEEN 10 and 70 CENTIMETERS"
      case Moderate => "FLOODING OF BETWEEN 71 and 150 CENTIMETERS"
      case Severe => "FLOODING OF OVER 150 CENTIMETERS"
    }

    /** The flooded-state code of the database that selects this severity. */
    function State(): int {
      match this
      case Unknown => 1
      case Minor => 2
      case Moderate => 3
      case Severe => 4
    }
  }

  /** Why no `info` could be built for a feature. */
  datatype CapError =
    | UnmappedState(state: int)
    | UnsupportedGeometry(typeName: string)
    | InteriorRing(polygonIndex: nat)
    | MissingRing(polygonIndex: nat)
  {
    /** A polygon without any ring makes the transformer read a property of `undefined`:
        a TypeError is thrown instead of `undefined` being returned. */
    predicate Throws() {
      MissingRing?
    }
  }

  /** The CAP `area` element. */
  datatype Area = Area(areaDesc: string, polygon: seq<string>)

  /** The CAP `info` element. */
  datatype Info = Info(
    category: string,
    event: string,
    urgency: string,
    severity: Severity,
    certainty: string,
    senderName: string,
    headline: string,
    description: string,
    web: string,
    area: Area)

  /** The CAP `alert` element; `info` is None where the source stores `undefined`. */
  datatype Alert = Alert(
    xmlns: string,
    identifier: string,
    sender: string,
    sent: string,
    status: string,
    msgType: string,
    scope: string,
    info: Option<Info>)

  /** The ATOM `content` element with `type="text/xml"` around one alert. */
  datatype Content = Content(contentType: string, alert: Alert)

  datatype Entry = Entry(id: string, title: string, updated: string, content: Content)

  datatype Author = Author(name: string, uri: string)

  /** The ATOM `feed` element. */
  datatype Feed = Feed(
    xmlns: string,
    id: string,
    title: string,
    updated: string,
    author: Author,
    entry: seq<Entry>)

  /**
   * The two renderings of a `last_updated` value that the transformer asks of moment-timezone:
   * `stamp` reads it as Asia/Jakarta civil time and prints 'YYYY-MM-DDTHH:mm:ssZ';
   * `hourMinute` reads it in the server's zone, converts it to Asia/Jakarta and prints 'HH:mm z'.
   */
  datatype Moment = Moment(stamp: string -> string, hourMinute: string -> string)
}
