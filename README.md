# MapProject: zone service, GeoJSON serializers and client helpers in Dafny

This project models the logic of the MapProject language map that can be
stated without I/O. It also proves properties of that model. Five parts are
covered:

- **Zone service.** `LanguagesZoneService` does four things:
  - it validates the bounding-box request and turns it into a closed
    five-point rectangle;
  - it looks zones up by id and by year, throwing when nothing is found;
  - it saves zones;
  - it updates a zone or inserts a new one (the upsert in
    `updateLanguageZone`).

  The MongoDB repository is a class holding a `map` from id to zone. It also
  keeps the ids in insertion order and lists query results in that
  order. That order is the model's choice: MongoDB promises none, and no
  contract depends on it.
- **GeoJSON serializers.** `GeoJsonPolygonSerializer` and
  `GeoJsonPolygonListSerializer` write Polygon objects (section 3.1.6 of
  RFC 7946, positions as in section 3.1.1) into a Jackson `JsonGenerator`.
  The generator is a class whose only state is the `seq` of tokens written
  so far, with append-only write methods. The serializers are imperative
  methods with loops, proved to write exactly the token stream of a
  specification function. That function is then proved three things:
  - its exact shape and its position and number counts;
  - balanced nesting of its start and end tokens;
  - a round trip through a reader.
- **Client checks (`MapAPI`).** The client checks its arguments before any
  request is sent:
  - coordinates, polygons, colours, zoom, year and intensity;
  - then it builds the JSON bodies of `createChunk`, `getLanguageZones` and
    `createLanguageZone`.

  Arguments are arbitrary JavaScript values, so each check returns the error
  of the first test that fails. For every check the model states, for every
  value, which error it raises. The coordinate, polygon and colour checks are
  also proved equal, in both directions, to predicates that describe a
  position, a closed ring and an RGB triple.
- **Client viewport helpers.** The model covers four of them:
  - `calculateChunkGrid`, a nested loop that tiles the visible box into
    n × n cells, proved against a grid specification over the reals;
  - the inclusive `isPointInBounds`;
  - panning with `addLatLonDelta`;
  - `resizeToShape`.

Modules: `Wrappers` (Option, Outcome, Result), `Geometry`, `JsonGenerator`,
`GeoJsonFormat`, `GeoJsonPolygonSerializer`, `GeoJsonPolygonListSerializer`,
`ZoneModel`, `ZoneRepository`, `ZoneService`, `MapApi` and `Viewport`.

Two facts about the backend shape the model:

- The code contains no clipping of zones to the bounding box.
  `getLanguagesZone` only builds the rectangle and hands it to
  `findAllByYearAndCoordsWithin`. That query's declaration is commented out
  at `LanguagesZoneRepository.java:15`, so the query is a function-valued
  parameter of `ZoneService.GetLanguagesZone`; no geometry is invented for it.
- `findAllByYear` returns an `Optional` list. The model reads it as empty
  exactly when no stored zone has that year. This is the one reading under
  which `getLanguagesZoneByYear` throws.

## Model

| member | source | states |
|---|---|---|
| `ZoneService.GetPoints` | backend/src/main/java/languages/map/services/LanguagesZoneService.java:37-53 | The rectangle is the closed ring (x1, y1), (x1, y2), (x2, y2), (x2, y1), (x1, y1), in that order, with no interior rings. Every vertex has x in {x1, x2} and y in {y1, y2}, taken from entries [0] and [1] of the corners. Each edge is axis-parallel. |
| `ZoneService.GetPointsCorners` | backend/src/main/java/languages/map/services/LanguagesZoneService.java:38-50 | The ring's vertex set is exactly the four corners of the box. The corners' order is not checked, so a box with its corners swapped is accepted and spans the same vertex set. |
| `ZoneService.GetLanguagesZone` | backend/src/main/java/languages/map/services/LanguagesZoneService.java:23-35 | The call fails with the invalid-bounding-box error iff a corner is missing or does not have length 2. For a valid box it fails with the no-zones error iff the query, given the year and the GetPoints ring, finds nothing. It succeeds iff the box is valid and the query finds something, and then it returns what the query returned. |
| `ZoneService.GuardBeforeQuery` | backend/src/main/java/languages/map/services/LanguagesZoneService.java:24-33 | An invalid box is rejected whatever the repository query would answer. The guard runs before the query. |
| `ZoneService.CopyFields` | backend/src/main/java/languages/map/services/LanguagesZoneService.java:80-87 | The update keeps the stored id. With the id put back, the record equals the new zone: name, description, coords, intensity, color and year all come from the new zone. |
| `ZoneService.UpsertIdempotent` | backend/src/main/java/languages/map/services/LanguagesZoneService.java:79-92 | Applying the update twice with the same zone saves the same record as applying it once. |
| `ZoneService.LanguagesZoneService.GetLanguageZoneById` | backend/src/main/java/languages/map/services/LanguagesZoneService.java:59-61 | It fails with the no-areas-by-id error iff the id is absent. It succeeds iff the id is stored, and then it returns the stored zone. |
| `ZoneService.LanguagesZoneService.GetLanguagesZoneByYear` | backend/src/main/java/languages/map/services/LanguagesZoneService.java:67-69 | It fails with the no-areas-by-year error iff no stored zone has that year. It succeeds iff some stored zone has that year, and then a zone is in the result iff it is stored with that year, and no zone appears twice. |
| `ZoneService.LanguagesZoneService.SaveLanguageZone` | backend/src/main/java/languages/map/services/LanguagesZoneService.java:75-77 | The zone is stored as given under its id. A zone without an id gets a fresh one, and only that entry changes. |
| `ZoneService.LanguagesZoneService.UpdateLanguageZone` | backend/src/main/java/languages/map/services/LanguagesZoneService.java:79-92 | If the id is stored, the saved record is the stored one with the six fields copied in. Otherwise it is the new zone with the given id. The saved id is the given id. Only the entry for that id changes, and the id order grows only when the id is new. |
| `ZoneRepository.ZonesWithYear` | backend/src/main/java/languages/map/repositories/LanguagesZoneRepository.java:14 | The year filter returns only stored zones of that year. It returns every stored zone of that year, and no more entries than there are ids. When every zone carries its own key as its id and no id is listed twice, it lists each zone at most once. |
| `ZoneRepository.LanguagesZoneRepository.FindById` | backend/src/main/java/languages/map/services/LanguagesZoneService.java:60 | The lookup is present iff the id is stored, and then it is the stored zone. |
| `ZoneRepository.LanguagesZoneRepository.FindAllByYear` | backend/src/main/java/languages/map/repositories/LanguagesZoneRepository.java:14 | The result is empty iff no stored zone has the year. Otherwise a zone is in the list iff it is stored with that year, and no zone appears twice. |
| `ZoneRepository.LanguagesZoneRepository.Save` | backend/src/main/java/languages/map/services/LanguagesZoneService.java:76 | A zone with an id replaces or adds that entry. A zone without one is given an id not yet stored. The store invariant (keys equal the zones' ids, ids listed once) is kept. |
| `JsonGenerator.Generator.WriteStartObject` | backend/src/main/java/languages/map/serializers/GeoJsonPolygonSerializer.java:14 | It appends exactly an object start. |
| `JsonGenerator.Generator.WriteEndObject` | backend/src/main/java/languages/map/serializers/GeoJsonPolygonSerializer.java:29 | It appends exactly an object end. |
| `JsonGenerator.Generator.WriteStartArray` | backend/src/main/java/languages/map/serializers/GeoJsonPolygonSerializer.java:19-21 | It appends exactly an array start. |
| `JsonGenerator.Generator.WriteEndArray` | backend/src/main/java/languages/map/serializers/GeoJsonPolygonSerializer.java:24-28 | It appends exactly an array end. |
| `JsonGenerator.Generator.WriteNumber` | backend/src/main/java/languages/map/serializers/GeoJsonPolygonSerializer.java:22-23 | It appends exactly one number token holding the value given. |
| `JsonGenerator.Generator.WriteStringField` | backend/src/main/java/languages/map/serializers/GeoJsonPolygonSerializer.java:15 | It appends a field name followed by a string value, and nothing else. |
| `JsonGenerator.Generator.WriteArrayFieldStart` | backend/src/main/java/languages/map/serializers/GeoJsonPolygonSerializer.java:16 | It appends a field name followed by an array start, and nothing else. |
| `GeoJsonPolygonSerializer.Serialize` | backend/src/main/java/languages/map/serializers/GeoJsonPolygonSerializer.java:12-30 | The write calls and the loop over the points append exactly PolygonTokens of the polygon. |
| `GeoJsonFormat.PolygonTokensShape` | backend/src/main/java/languages/map/serializers/GeoJsonPolygonSerializer.java:14-29 | The output is the object start, `"type": "Polygon"`, `"coordinates"` and two array starts, then one `[x, y]` group per point in input order (x before y), then two array ends and the object end. It is 9 + 4n tokens long. |
| `GeoJsonFormat.RingTokensAt` | backend/src/main/java/languages/map/serializers/GeoJsonPolygonSerializer.java:20-25 | The ring holds four tokens per point. The k-th group is StartArray, x, y, EndArray of the k-th point. |
| `GeoJsonFormat.PolygonTokensNeutral` | backend/src/main/java/languages/map/serializers/GeoJsonPolygonSerializer.java:14-29 | Start and end tokens are balanced and properly nested, inside any enclosing context. |
| `GeoJsonFormat.InteriorRingsNotWritten` | backend/src/main/java/languages/map/serializers/GeoJsonPolygonSerializer.java:18-26 | Only the exterior ring is written. The output equals that of the polygon without its interior rings, and it reads back as that polygon. |
| `GeoJsonFormat.PolygonRingClosedIff` | backend/src/main/java/languages/map/serializers/GeoJsonPolygonSerializer.java:20-25 | Points are written verbatim. The ring read back is the input ring, so the output ring is closed iff the input ring is. |
| `GeoJsonFormat.PolygonRoundTrip` | backend/src/main/java/languages/map/serializers/GeoJsonPolygonSerializer.java:14-29 | A stream reads back as exactly one polygon p iff it is p's output and p has no interior rings. |
| `GeoJsonPolygonListSerializer.Serialize` | backend/src/main/java/languages/map/serializers/GeoJsonPolygonListSerializer.java:14-35 | The nested loops append exactly PolygonListTokens of the list. |
| `GeoJsonFormat.PolygonListEnds` | backend/src/main/java/languages/map/serializers/GeoJsonPolygonListSerializer.java:16-34 | The output begins with StartArray and ends with EndArray. |
| `GeoJsonFormat.PolygonListSegment` | backend/src/main/java/languages/map/serializers/GeoJsonPolygonListSerializer.java:17-33 | The k-th segment is token for token the single-polygon output of the k-th polygon. Segments follow each other in list order. |
| `GeoJsonFormat.PolygonListTokensEmpty` | backend/src/main/java/languages/map/serializers/GeoJsonPolygonListSerializer.java:16-34 | An empty list gives exactly StartArray, EndArray. |
| `GeoJsonFormat.PolygonListTokensNumbers` | backend/src/main/java/languages/map/serializers/GeoJsonPolygonListSerializer.java:23-28 | The output holds exactly 2 × (total number of points) number tokens. |
| `GeoJsonFormat.PolygonListTokensBalanced` | backend/src/main/java/languages/map/serializers/GeoJsonPolygonListSerializer.java:16-34 | Start and end tokens are balanced and nested for any list. |
| `GeoJsonFormat.PolygonListReadBack` | backend/src/main/java/languages/map/serializers/GeoJsonPolygonListSerializer.java:17-33 | The list output reads back as the list, in order, less interior rings. |
| `GeoJsonFormat.PolygonListRoundTrip` | backend/src/main/java/languages/map/serializers/GeoJsonPolygonListSerializer.java:16-34 | A stream reads as a list iff it is that list's output and no polygon of the list has interior rings. |
| `MapApi.StripTrailingSlash` | client/js/MapApi/index.js:8 | The result is the argument with one trailing slash removed when it has one, and unchanged otherwise. |
| `MapApi.MapApiClient.constructor` | client/js/MapApi/index.js:7-15 | The base URL is always `http://127.0.0.1:8080/api`, whatever string argument is given. The headers ask for JSON. |
| `MapApi.ValidateCoordinates` | client/js/MapApi/index.js:24-39 | It passes iff the value is a length-2 array of numbers with longitude in [-180, 180] and latitude in [-90, 90], bounds included. The checks run in order: shape, then type, then longitude, then latitude. The shape, type and longitude errors each hold exactly when their check is the first to fail. The latitude error holds exactly when the value is a pair of numbers, the longitude is in range and the latitude is not. |
| `MapApi.ValidateEachPosition` | client/js/MapApi/index.js:60 | It passes iff every entry is a position. Otherwise it reports the error of the first entry that fails. |
| `MapApi.ValidatePolygon` | client/js/MapApi/index.js:47-61 | It fails with the shape error iff the value is not an array whose entry [0] is an array. It passes iff the value is a non-empty array of positions whose last entry equals its first. Past the shape check, a null or undefined last entry raises a TypeError. Then first and last entries that differ in component 0 or 1 give the not-closed error. Otherwise the result is the position check of every entry, which reports the first failing entry's error. |
| `MapApi.ClosureCheckedFirst` | client/js/MapApi/index.js:53-60 | First and last entries that differ in component 0 or 1 give the not-closed error, whatever the positions hold. |
| `MapApi.NoMinimumLength` | client/js/MapApi/index.js:47-61 | No minimum length is demanded. Any non-empty repetition of one valid position passes, a single position included. |
| `MapApi.ValidateColor` | client/js/MapApi/index.js:69-76 | It passes iff the value is an array of three integers in [0, 255]. It reports the shape error iff the value is not a length-3 array. Any other failure is the values error. |
| `MapApi.ValidateZoom` | client/js/MapApi/index.js:84-88 | For every value the result is a pass or the zoom error. Every non-number is rejected, and a value that passes lies in [1, 16]. |
| `MapApi.ValidateYear` | client/js/MapApi/index.js:96-100 | For every value the result is a pass or the year error. Every non-number is rejected, and a value that passes lies in [1900, 2100]. |
| `MapApi.ZoomAcceptsExactly` | client/js/MapApi/index.js:84-88 | For every value, zoom passes or fails with the zoom error. It passes exactly for numbers that are integers from 1 to 16. Non-numbers, fractions and other integers are rejected. |
| `MapApi.YearAcceptsExactly` | client/js/MapApi/index.js:96-100 | For every value, year passes or fails with the year error. It passes exactly for numbers that are integers from 1900 to 2100. Non-numbers, fractions and other integers are rejected. |
| `MapApi.ValidateIntensity` | client/js/MapApi/index.js:108-112 | It passes iff the value is a number in [0, 1]. Otherwise it fails with the intensity error. |
| `MapApi.CreateChunkBody` | client/js/MapApi/index.js:138-148 | A body is built iff the coordinates and the zoom pass. A coordinate error is reported first. With valid coordinates, a bad zoom gives the zoom error. The body has exactly two members, `center` then `zoom_level`. `center` is exactly `{type: 'Point', coordinates}` with the coordinates unchanged, and `zoom_level` is the zoom as given. |
| `MapApi.GetLanguageZonesBody` | client/js/MapApi/index.js:171-181 | A body is built iff the year passes and both corners are arrays. A year error comes first. With a valid year, a corner that is not an array gives the bounding-box error. The body has exactly two members, `leftTopPointLatLon` then `rightBottomPointLatLon`, holding the corners unchanged. |
| `MapApi.ValidateEachPolygon` | client/js/MapApi/index.js:215 | It passes iff every polygon is a valid ring. Otherwise it reports the error of the first polygon that fails. |
| `MapApi.CreateLanguageZoneBody` | client/js/MapApi/index.js:213-234 | A body is built iff the polygons value is an array of valid rings, the colour, intensity and year pass, and name and description are truthy. A non-array polygons value raises a TypeError. The checks then run in source order, each error holding when every earlier check passed: the first failing polygon's error, then the colour error, the intensity error, the year error, and the missing name or description error. |
| `MapApi.ZoneBodyMembers` | client/js/MapApi/index.js:224-234 | `coords` has one entry per polygon, in order. Reading the entries back gives the polygons unchanged. The other members are the arguments as given. |
| `MapApi.EntryRingsOfEntries` | client/js/MapApi/index.js:225-228 | Each `{type: 'Polygon', coordinates: [poly]}` entry holds exactly its polygon, in order. |
| `MapApi.CreateLanguageZoneBodyCoords` | client/js/MapApi/index.js:213-234 | Every body that is built has the coords and members ZoneBodyMembers describes. |
| `Viewport.CalculateChunkGrid` | client/js/viewport/index.js:281-313 | The nested loops build exactly Grid(leftTop, rightBottom, n). There is no cell for n = 0. |
| `Viewport.CellIsChunk` | client/js/viewport/index.js:289-302 | The cell the loop body builds from the deltas has corners on grid lines i, i + 1 and j, j + 1, and its center is their midpoint. |
| `Viewport.GridLength` | client/js/viewport/index.js:287-310 | The grid has exactly n × n cells. |
| `Viewport.GridCell` | client/js/viewport/index.js:287-304 | Cell (i, j) is at index i × n + j: row i is the outer loop, column j the inner one. |
| `Viewport.GridSpansBox` | client/js/viewport/index.js:282-296 | The first cell's left-top corner is the box's left-top corner. The last cell's right-bottom corner is the box's right-bottom corner. |
| `Viewport.GridNeighbours` | client/js/viewport/index.js:287-296 | Neighbouring cells share edges. All cells of a row share a top edge, and all cells of a column share a left edge. |
| `Viewport.ChunkExtent` | client/js/viewport/index.js:282-296 | Every cell's extent is the box's extent divided by n on each axis. |
| `Viewport.ChunksInsideBox` | client/js/viewport/index.js:287-302 | For a box that is not inverted, every cell's corners and center lie in the box, and each center lies in its own cell. |
| `Viewport.GridCoversBox` | client/js/viewport/index.js:287-310 | Every point in bounds of the box is in bounds of some cell. |
| `Viewport.IsPointInBounds` | client/js/viewport/index.js:256-261 | A point can be in bounds only of a box that is not inverted on either axis. |
| `Viewport.CornersInBounds` | client/js/viewport/index.js:256-261 | The bounds test is inclusive. Each corner is in bounds iff the box is not inverted. |
| `Viewport.InvertedBoxEmpty` | client/js/viewport/index.js:256-261 | No point is in bounds of a box that is inverted on either axis. |
| `Viewport.DefaultViewportEmpty` | client/js/viewport/index.js:346-347 | No point is in bounds of the default corners (90, -180) and (-90, 180). |
| `Viewport.AddLatLonDelta` | client/js/viewport/index.js:204-209 | The moved point differs from the original by exactly the delta, on each axis. |
| `Viewport.PanKeepsSpan` | client/js/viewport/index.js:204-209 | Adding one delta to both corners keeps the box's extent. |
| `Viewport.PanInverse` | client/js/viewport/index.js:204-209 | The opposite delta undoes a delta, and two deltas add up to one. |
| `Viewport.PanKeepsBounds` | client/js/viewport/index.js:204-209 | Panning the point and the box by the same delta does not change whether the point is in bounds. |
| `Viewport.ResizeToShape` | client/js/viewport/index.js:135-144 | The nesting and every list length are kept. A point is scaled componentwise by the shape, and so is every point of a point list. |
| `Viewport.ResizeCompose` | client/js/viewport/index.js:135-144 | Scaling by one shape and then another is scaling by their product. |
| `Viewport.ResizeIdentity` | client/js/viewport/index.js:135-144 | Scaling by (1, 1) changes nothing. |
| `Viewport.ResizeInverse` | client/js/viewport/index.js:135-144 | For a shape with no zero side, the reciprocal shape undoes the scaling. |

## Left out

- Polygon clipping, repair and multi-polygon output: none of it exists in the code. The bounding-box query `findAllByYearAndCoordsWithin` is commented out of the repository interface, so the service code as given would not compile. That query is a parameter of `ZoneService.GetLanguagesZone`.
- Spring Data and MongoDB. The repository is a map plus an id order. `findById`, `save` and `findAllByYear` are modelled by their contracts. Fresh ids come from `IdAfter`, a stand-in for MongoDB's ObjectId generation.
- `ZoneRepository.LanguagesZoneRepository.FindAllByYear`: the model picks one reading of the empty `Optional` (no zone of that year), because derived Spring queries leave it unspecified.
- Zones are values, so aliasing is not modelled. `updateLanguageZone` also sets the id on the caller's `newLanguagesZone` object, and that side effect is not captured.
- JSON text: the serializers are modelled up to the generator's token stream. Jackson's character output, escaping and number formatting are not modelled.
- Floating point: doubles are `real`. NaN, infinities and rounding are not modelled. For example, NaN passes `_validateIntensity`, and the grid's cells only tile the box exactly over the reals.
- `MapApi.ClosureCheck` compares components with structural equality. JavaScript's `!==` compares nested arrays by reference, so only the error reported for such inputs can differ.
- MapApi.MapApiClient.constructor: the base URL argument is a string. A non-string argument such as null, a number or an object makes the trailing-slash `replace` throw a TypeError in JavaScript; that is not modelled.
- `MapApi.Component`: an object's property "0" or "1" is its first member with that name. Prototype lookups and getters are not modelled.
- `Viewport.ResizeToShape` maps an empty list to an empty list. JavaScript scales `undefined`, which gives `[NaN, NaN]`, and NaN is not modelled.
- `Viewport.CalculateChunkGrid` computes no delta when n = 0. JavaScript divides by zero but never uses the result, so the returned value, an empty list, is the same. The cell count is a natural number; fractional or negative counts are not modelled.
- The `center` argument of `calculateChunkGrid` is unused in the source, and it is unused here too.
- All `fetch` calls, HTTP status handling and response parsing are network I/O.
- The Mercator, pixel, distance and zoom conversions use logarithms and trigonometry.
- Canvas drawing, the `Viewport` class's event handlers, `_demo_polygon.js` and `client/js/index.js` are UI code. Only the default corners are modelled. The drag handler reads the undeclared names `canvas`, `leftTop` and `rightBottom` (`viewport/index.js:461`), so it throws a ReferenceError before it pans. `Viewport.PanKeepsSpan` is about `addLatLonDelta` itself, the update the handler was meant to apply to both corners.
- The REST controllers, SecurityConfig, the WebSocket code, `AreaService`, `AreasService`, `ChunkService`, `MapService` and `UserService`, and the controller tests are HTTP plumbing, transport or code outside this model.
