/** The stored zone record and the bounding-box request of the backend. Every
    field the Java classes leave nullable is an Option here. */
module ZoneModel {
  import opened Wrappers
  import opened Geometry

  /** A document id (Mongo's ObjectId), opaque apart from equality. */
  type ObjectId = nat

  /** A language zone: its id, its polygons and its display metadata. */
  datatype LanguagesZone = LanguagesZone(
    id: Option<ObjectId>,
    coords: Option<seq<Polygon>>,
    description: Option<string>,
    name: Option<string>,
    intensity: Option<real>,
    color: Option<seq<Option<int>>>,
    year: Option<int>)

  /** The two corners of a viewport as the client sends them; either array may
      be missing and nothing fixes its length. */
  datatype BoundingBoxRequest = BoundingBoxRequest(
    leftTopPointLatLon: Option<seq<real>>,
    rightBottomPointLatLon: Option<seq<real>>)
}
