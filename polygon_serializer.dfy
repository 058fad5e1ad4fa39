/** GeoJsonPolygonSerializer: writes one polygon as a GeoJSON Polygon object
    whose "coordinates" hold its points as the single (exterior) ring. */
module GeoJsonPolygonSerializer {
  import opened Geometry
  import opened JsonGenerator
  import opened GeoJsonFormat

  /** Appends exactly the Polygon object for `value` to what `gen` has already
      written; the lemmas of GeoJsonFormat give that object's shape, nesting and
      round trip. */
  method Serialize(value: Polygon, gen: Generator)
    modifies gen
    ensures gen.tokens == old(gen.tokens) + PolygonTokens(value)
  {
    ghost var before := gen.tokens;
    gen.WriteStartObject();
    gen.WriteStringField("type", "Polygon");
    gen.WriteArrayFieldStart("coordinates");

    // the exterior ring
    gen.WriteStartArray();
    AppendHeader(before);
    ghost var header := before + PolygonHeader;
    var points := value.points;
    for i := 0 to |points|
      invariant gen.tokens == header + RingTokens(points[..i])
    {
      var point := points[i];
      gen.WriteStartArray();
      gen.WriteNumber(point.x);
      gen.WriteNumber(point.y);
      gen.WriteEndArray();
      AppendPosition(header, points, i);
    }
    gen.WriteEndArray();

    gen.WriteEndArray();
    gen.WriteEndObject();
    AppendTrailer(before, value);
  }
}
