/** GeoJsonPolygonListSerializer: writes a list of polygons as a JSON array of
    GeoJSON Polygon objects, each written the way GeoJsonPolygonSerializer
    writes a single one. */
module GeoJsonPolygonListSerializer {
  import opened Geometry
  import opened JsonGenerator
  import opened GeoJsonFormat

  /** Appends exactly the array of Polygon objects for `value` to what `gen` has
      already written. */
  method Serialize(value: seq<Polygon>, gen: Generator)
    modifies gen
    ensures gen.tokens == old(gen.tokens) + PolygonListTokens(value)
  {
    gen.WriteStartArray();
    ghost var start := gen.tokens;
    for k := 0 to |value|
      invariant gen.tokens == start + PolygonsTokens(value[..k])
    {
      var polygon := value[k];
      ghost var before := gen.tokens;
      gen.WriteStartObject();
      gen.WriteStringField("type", "Polygon");
      gen.WriteArrayFieldStart("coordinates");

      gen.WriteStartArray();
      AppendHeader(before);
      ghost var header := before + PolygonHeader;
      var points := polygon.points;
      for i := 0 to |points|
        invariant gen.tokens == header + RingTokens(points[..i])
      {
        var point := points[i];
        gen.WriteStartArray();
        gen.WriteNumber(point.x);
        gen.WriteNumber(point.y);
        gen.WriteEndArray();
        AppendPosition(header, points, i);
      }
      gen.WriteEndArray();

      gen.WriteEndArray();
      gen.WriteEndObject();
      AppendTrailer(before, polygon);
      assert gen.tokens == before + PolygonTokens(polygon);
      AppendPolygon(start, value, k);
    }
    gen.WriteEndArray();
    AppendListEnd(old(gen.tokens), value);
  }
}
