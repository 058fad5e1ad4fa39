/** The client's MapAPI: the checks it makes on its arguments before any
    request is sent, and the JSON bodies it builds from them. Arguments are
    arbitrary JavaScript values, so the checks on type and shape are part of
    the model. */
module MapApi {
  import opened Wrappers

  /** JavaScript values as far as the client handles them. Object members keep
      their insertion order, which is the order JSON.stringify writes them in. */
  datatype JsValue =
    | Undefined
    | Null
    | Bool(b: bool)
    | Number(n: real)
    | Str(s: string)
    | Array(items: seq<JsValue>)
    | Object(members: seq<(string, JsValue)>)

  /** The errors the client throws: one per `Error` message, plus the TypeError the
      runtime raises when a property of null or undefined is read, or when
      forEach is called on something that is not an array. */
  datatype ApiError =
    | CoordinatesShape
    | CoordinatesType
    | LongitudeRange
    | LatitudeRange
    | PolygonShape
    | PolygonNotClosed
    | ColorShape
    | ColorValues
    | ZoomRange
    | YearRange
    | IntensityRange
    | BoundingBoxNotArrays
    | NameOrDescriptionMissing
    | JsTypeError

  const DefaultBaseUrl: string := "http://127.0.0.1:8080/api"

  /** `Number.isInteger`. */
  predicate IsInteger(v: JsValue)
  {
    v.Number? && v.n.Floor as real == v.n
  }

  /** Truthiness, as `!x` tests it (NaN is not modelled). */
  predicate Truthy(v: JsValue)
  {
    match v
    case Undefined => false
    case Null => false
    case Bool(b) => b
    case Number(n) => n != 0.0
    case Str(s) => s != ""
    case Array(_) => true
    case Object(_) => true
  }

  /** `v[k]` for k = 0 or 1: an array element, a one-character string, an object
      member named "0" or "1", or undefined; reading it from null or undefined
      raises a TypeError. */
  function Component(v: JsValue, k: nat): Result<JsValue, ApiError>
    requires k <= 1
  {
    match v
    case Undefined => Err(JsTypeError)
    case Null => Err(JsTypeError)
    case Array(items) => Ok(if k < |items| then items[k] else Undefined)
    case Str(s) => Ok(if k < |s| then Str([s[k]]) else Undefined)
    case Object(members) => Ok(Member(members, if k == 0 then "0" else "1"))
    case _ => Ok(Undefined)
  }

  /** The first member named `key`, or undefined. */
  function Member(members: seq<(string, JsValue)>, key: string): JsValue
  {
    if members == [] then Undefined
    else if members[0].0 == key then members[0].1
    else Member(members[1..], key)
  }

  /** The member at index i is the one found when no earlier member has its name. */
  lemma {:induction false} MemberAt(members: seq<(string, JsValue)>, i: nat)
    requires i < |members|
    requires forall j :: 0 <= j < i ==> members[j].0 != members[i].0
    ensures Member(members, members[i].0) == members[i].1
  {
    if i > 0 {
      assert members[1..][i - 1] == members[i];
      MemberAt(members[1..], i - 1);
    }
  }

  // ---------------------------------------------------------------------------
  // What the checks accept, stated on their own.

  /** A position: two numbers, longitude in [-180, 180] and latitude in [-90, 90]. */
  predicate IsPosition(v: JsValue)
  {
    && v.Array? && |v.items| == 2 && v.items[0].Number? && v.items[1].Number?
    && -180.0 <= v.items[0].n <= 180.0 && -90.0 <= v.items[1].n <= 90.0
  }

  /** A ring: at least one position, all positions, the last equal to the first. */
  predicate IsValidRing(v: JsValue)
  {
    && v.Array? && |v.items| > 0
    && (forall i :: 0 <= i < |v.items| ==> IsPosition(v.items[i]))
    && v.items[0] == v.items[|v.items| - 1]
  }

  /** An RGB triple of integers in [0, 255]. */
  predicate IsColor(v: JsValue)
  {
    && v.Array? && |v.items| == 3
    && forall i :: 0 <= i < 3 ==> IsInteger(v.items[i]) && 0.0 <= v.items[i].n <= 255.0
  }

  // ---------------------------------------------------------------------------
  // The checks, in the order the client makes them.

  /** `_validateCoordinates`: shape, then type, then longitude, then latitude. */
  function ValidateCoordinates(coords: JsValue): (r: Outcome<ApiError>)
    ensures r == Pass <==> IsPosition(coords)
    ensures r == Fail(CoordinatesShape) <==> !(coords.Array? && |coords.items| == 2)
    ensures r == Fail(CoordinatesType) <==>
      coords.Array? && |coords.items| == 2 && !(coords.items[0].Number? && coords.items[1].Number?)
    ensures r == Fail(LongitudeRange) <==>
      coords.Array? && |coords.items| == 2 && coords.items[0].Number? && coords.items[1].Number?
      && !(-180.0 <= coords.items[0].n <= 180.0)
    ensures r == Fail(LatitudeRange) <==>
      coords.Array? && |coords.items| == 2 && coords.items[0].Number? && coords.items[1].Number?
      && -180.0 <= coords.items[0].n <= 180.0 && !(-90.0 <= coords.items[1].n <= 90.0)
  {
    if !coords.Array? || |coords.items| != 2 then Fail(CoordinatesShape)
    else
      var lon, lat := coords.items[0], coords.items[1];
      if !lon.Number? || !lat.Number? then Fail(CoordinatesType)
      else if lon.n < -180.0 || lon.n > 180.0 then Fail(LongitudeRange)
      else if lat.n < -90.0 || lat.n > 90.0 then Fail(LatitudeRange)
      else Pass
  }

  /** `coordinates.forEach(coord => this._validateCoordinates(coord))`: the
      error of the first position that fails, if any. */
  function ValidateEachPosition(items: seq<JsValue>): (r: Outcome<ApiError>)
    ensures r == Pass <==> forall i :: 0 <= i < |items| ==> IsPosition(items[i])
    ensures r.Fail? ==>
      exists i :: 0 <= i < |items| && ValidateCoordinates(items[i]) == r
        && forall j :: 0 <= j < i ==> IsPosition(items[j])
  {
    if items == [] then Pass
    else
      match ValidateCoordinates(items[0])
      case Fail(e) => Fail(e)
      case Pass =>
        var r := ValidateEachPosition(items[1..]);
        assert forall i :: 1 <= i < |items| ==> items[i] == items[1..][i - 1];
        if r.Fail? then
          var i :| 0 <= i < |items[1..]| && ValidateCoordinates(items[1..][i]) == r
                 && forall j :: 0 <= j < i ==> IsPosition(items[1..][j]);
          assert ValidateCoordinates(items[i + 1]) == r;
          r
        else r
  }

  /** Whether the first and last positions agree in components 0 and 1, or the
      TypeError reading them raises. `first` is known to be an array. */
  function ClosureCheck(first: JsValue, last: JsValue): Outcome<ApiError>
    requires first.Array?
  {
    match Component(last, 0)
    case Err(e) => Fail(e)
    case Ok(last0) =>
      if Component(first, 0).value != last0 then Fail(PolygonNotClosed)
      else if Component(first, 1).value != Component(last, 1).value then Fail(PolygonNotClosed)
      else Pass
  }

  /** An array whose first entry is an array: what `_validatePolygon` checks first. */
  predicate IsPolygonShape(v: JsValue)
  {
    v.Array? && |v.items| > 0 && v.items[0].Array?
  }

  /** `_validatePolygon`: an array whose first entry is an array, then the
      closure check, then every position. */
  function ValidatePolygon(coordinates: JsValue): (r: Outcome<ApiError>)
    ensures r == Fail(PolygonShape) <==> !IsPolygonShape(coordinates)
    ensures r == Pass <==> IsValidRing(coordinates)
    ensures IsPolygonShape(coordinates) ==>
      var first, last := coordinates.items[0], coordinates.items[|coordinates.items| - 1];
      && ((last.Null? || last.Undefined?) ==> r == Fail(JsTypeError))
      && (!(last.Null? || last.Undefined?)
          && (Component(first, 0) != Component(last, 0) || Component(first, 1) != Component(last, 1))
          ==> r == Fail(PolygonNotClosed))
      && (!(last.Null? || last.Undefined?)
          && Component(first, 0) == Component(last, 0) && Component(first, 1) == Component(last, 1)
          ==> r == ValidateEachPosition(coordinates.items))
  {
    if !coordinates.Array? || |coordinates.items| == 0 || !coordinates.items[0].Array? then
      Fail(PolygonShape)
    else
      var items := coordinates.items;
      var first, last := items[0], items[|items| - 1];
      var closed := ClosureCheck(first, last);
      if closed.Fail? then closed
      else
        var each := ValidateEachPosition(items);
        assert each == Pass ==> first == last by {
          if each == Pass {
            assert IsPosition(first) && IsPosition(last);
            assert first.items == last.items;
          }
        }
        each
  }

  /** `_validateColor`: an array of three, then every entry an integer in [0, 255]. */
  function ValidateColor(color: JsValue): (r: Outcome<ApiError>)
    ensures r == Pass <==> IsColor(color)
    ensures r == Fail(ColorShape) <==> !(color.Array? && |color.items| == 3)
    ensures r.Fail? ==> r == Fail(ColorShape) || r == Fail(ColorValues)
  {
    if !color.Array? || |color.items| != 3 then Fail(ColorShape)
    else if !(forall c :: c in color.items ==> IsInteger(c) && 0.0 <= c.n <= 255.0) then Fail(ColorValues)
    else Pass
  }

  /** `_validateZoom`: anything but an integer number from 1 to 16 is rejected
      with the zoom error. */
  function ValidateZoom(zoom: JsValue): (r: Outcome<ApiError>)
    ensures r == Pass || r == Fail(ZoomRange)
    ensures !zoom.Number? ==> r == Fail(ZoomRange)
    ensures r == Pass ==> 1.0 <= zoom.n <= 16.0
  {
    if !IsInteger(zoom) || zoom.n < 1.0 || zoom.n > 16.0 then Fail(ZoomRange) else Pass
  }

  /** `_validateYear`: anything but an integer number from 1900 to 2100 is
      rejected with the year error. */
  function ValidateYear(year: JsValue): (r: Outcome<ApiError>)
    ensures r == Pass || r == Fail(YearRange)
    ensures !year.Number? ==> r == Fail(YearRange)
    ensures r == Pass ==> 1900.0 <= year.n <= 2100.0
  {
    if !IsInteger(year) || year.n < 1900.0 || year.n > 2100.0 then Fail(YearRange) else Pass
  }

  /** `_validateIntensity`. */
  function ValidateIntensity(intensity: JsValue): (r: Outcome<ApiError>)
    ensures r == Pass <==> intensity.Number? && 0.0 <= intensity.n <= 1.0
    ensures r == Pass || r == Fail(IntensityRange)
  {
    if !intensity.Number? || intensity.n < 0.0 || intensity.n > 1.0 then Fail(IntensityRange) else Pass
  }

  /** The zoom check accepts exactly the numbers that are integers from 1 to
      16, and rejects everything else (strings, fractions, other integers)
      with the zoom error. */
  lemma ZoomAcceptsExactly(v: JsValue, k: int, x: real)
    ensures ValidateZoom(v) == Pass || ValidateZoom(v) == Fail(ZoomRange)
    ensures ValidateZoom(v) == Pass <==> v.Number? && v.n == v.n.Floor as real && 1 <= v.n.Floor <= 16
    ensures !v.Number? ==> ValidateZoom(v) == Fail(ZoomRange)
    ensures ValidateZoom(Number(k as real)) == Pass <==> 1 <= k <= 16
    ensures x.Floor as real != x ==> ValidateZoom(Number(x)) == Fail(ZoomRange)
  {
    assert (k as real).Floor == k;
  }

  /** The year check accepts exactly the numbers that are integers from 1900
      to 2100, and rejects everything else with the year error. */
  lemma YearAcceptsExactly(v: JsValue, k: int, x: real)
    ensures ValidateYear(v) == Pass || ValidateYear(v) == Fail(YearRange)
    ensures ValidateYear(v) == Pass <==> v.Number? && v.n == v.n.Floor as real && 1900 <= v.n.Floor <= 2100
    ensures !v.Number? ==> ValidateYear(v) == Fail(YearRange)
    ensures ValidateYear(Number(k as real)) == Pass <==> 1900 <= k <= 2100
    ensures x.Floor as real != x ==> ValidateYear(Number(x)) == Fail(YearRange)
  {
    assert (k as real).Floor == k;
  }

  /** The closure check runs first: whatever the positions hold, a polygon
      whose first and last arrays differ in component 0 or 1 is reported as
      not closed. */
  lemma ClosureCheckedFirst(items: seq<JsValue>)
    requires |items| > 0 && items[0].Array? && items[|items| - 1].Array?
    requires Component(items[0], 0) != Component(items[|items| - 1], 0)
          || Component(items[0], 1) != Component(items[|items| - 1], 1)
    ensures ValidatePolygon(Array(items)) == Fail(PolygonNotClosed)
  {
  }

  /** No minimum length: a single valid position is an accepted polygon, and so
      is the same position repeated. */
  lemma NoMinimumLength(p: JsValue, n: nat)
    requires IsPosition(p) && n > 0
    ensures ValidatePolygon(Array(seq(n, _ => p))) == Pass
  {
    var items := seq(n, _ => p);
    assert forall i :: 0 <= i < |items| ==> IsPosition(items[i]);
  }

  // ---------------------------------------------------------------------------
  // Request bodies.

  /** `createChunk`: the coordinates and the zoom are checked, in that order,
      before the body is built. */
  function CreateChunkBody(coordinates: JsValue, zoomLevel: JsValue): (r: Result<JsValue, ApiError>)
    ensures r.Ok? <==> IsPosition(coordinates) && ValidateZoom(zoomLevel) == Pass
    ensures ValidateCoordinates(coordinates).Fail? ==> r == Err(ValidateCoordinates(coordinates).error)
    ensures ValidateCoordinates(coordinates) == Pass && ValidateZoom(zoomLevel).Fail? ==> r == Err(ZoomRange)
    ensures r.Ok? ==>
      && r.value.Object?
      && |r.value.members| == 2
      && r.value.members[0].0 == "center" && r.value.members[1].0 == "zoom_level"
      && r.value.members[0].1 == Object([("type", Str("Point")), ("coordinates", coordinates)])
      && Member(r.value.members, "zoom_level") == zoomLevel
      && Member(r.value.members, "center").Object?
      && Member(Member(r.value.members, "center").members, "type") == Str("Point")
      && Member(Member(r.value.members, "center").members, "coordinates") == coordinates
  {
    match ValidateCoordinates(coordinates)
    case Fail(e) => Err(e)
    case Pass =>
      match ValidateZoom(zoomLevel)
      case Fail(e) => Err(e)
      case Pass =>
        Ok(Object([
          ("center", Object([("type", Str("Point")), ("coordinates", coordinates)])),
          ("zoom_level", zoomLevel)]))
  }

  /** `getLanguageZones`: the year is checked, then both corners must be
      arrays; the corners are passed through unchanged. */
  function GetLanguageZonesBody(year: JsValue, leftTop: JsValue, rightBottom: JsValue): (r: Result<JsValue, ApiError>)
    ensures r.Ok? <==> ValidateYear(year) == Pass && leftTop.Array? && rightBottom.Array?
    ensures ValidateYear(year).Fail? ==> r == Err(YearRange)
    ensures ValidateYear(year) == Pass && !(leftTop.Array? && rightBottom.Array?) ==> r == Err(BoundingBoxNotArrays)
    ensures r.Ok? ==>
      && r.value.Object?
      && |r.value.members| == 2
      && r.value.members[0].0 == "leftTopPointLatLon" && r.value.members[1].0 == "rightBottomPointLatLon"
      && Member(r.value.members, "leftTopPointLatLon") == leftTop
      && Member(r.value.members, "rightBottomPointLatLon") == rightBottom
  {
    match ValidateYear(year)
    case Fail(e) => Err(e)
    case Pass =>
      if !leftTop.Array? || !rightBottom.Array? then Err(BoundingBoxNotArrays)
      else Ok(Object([("leftTopPointLatLon", leftTop), ("rightBottomPointLatLon", rightBottom)]))
  }

  /** `polygons.forEach(poly => this._validatePolygon(poly))`. */
  function ValidateEachPolygon(polygons: seq<JsValue>): (r: Outcome<ApiError>)
    ensures r == Pass <==> forall i :: 0 <= i < |polygons| ==> IsValidRing(polygons[i])
    ensures r.Fail? ==>
      exists i :: 0 <= i < |polygons| && ValidatePolygon(polygons[i]) == r
        && forall j :: 0 <= j < i ==> IsValidRing(polygons[j])
  {
    if polygons == [] then Pass
    else
      match ValidatePolygon(polygons[0])
      case Fail(e) => Fail(e)
      case Pass =>
        var r := ValidateEachPolygon(polygons[1..]);
        assert forall i :: 1 <= i < |polygons| ==> polygons[i] == polygons[1..][i - 1];
        if r.Fail? then
          var i :| 0 <= i < |polygons[1..]| && ValidatePolygon(polygons[1..][i]) == r
                 && forall j :: 0 <= j < i ==> IsValidRing(polygons[1..][j]);
          assert ValidatePolygon(polygons[i + 1]) == r;
          r
        else r
  }

  /** One `{type: 'Polygon', coordinates: [poly]}` entry. */
  function PolygonEntry(poly: JsValue): JsValue
  {
    Object([("type", Str("Polygon")), ("coordinates", Array([poly]))])
  }

  /** The rings held by the entries of a zone body's `coords` array, when it
      has the shape written by CreateLanguageZoneBody. */
  function EntryRings(entries: seq<JsValue>): Result<seq<JsValue>, ApiError>
  {
    if entries == [] then Ok([])
    else
      var e := entries[0];
      var c := if e.Object? then Member(e.members, "coordinates") else Undefined;
      if !(e.Object? && Member(e.members, "type") == Str("Polygon") && c.Array? && |c.items| == 1) then
        Err(PolygonShape)
      else
        match EntryRings(entries[1..])
        case Err(err) => Err(err)
        case Ok(rest) => Ok([c.items[0]] + rest)
  }

  lemma {:induction false} EntryRingsOfEntries(polygons: seq<JsValue>)
    ensures EntryRings(seq(|polygons|, i requires 0 <= i < |polygons| => PolygonEntry(polygons[i]))) == Ok(polygons)
  {
    var entries := seq(|polygons|, i requires 0 <= i < |polygons| => PolygonEntry(polygons[i]));
    if polygons != [] {
      var e := PolygonEntry(polygons[0]);
      assert entries[0] == e;
      MemberAt(e.members, 0);
      MemberAt(e.members, 1);
      var tail := seq(|polygons[1..]|, i requires 0 <= i < |polygons[1..]| => PolygonEntry(polygons[1..][i]));
      assert entries[1..] == tail;
      EntryRingsOfEntries(polygons[1..]);
      assert [polygons[0]] + polygons[1..] == polygons;
    }
  }

  /** `createLanguageZone`: every polygon, then the color, the intensity and the
      year are checked, then name and description must be truthy; only then is
      the body built. */
  function CreateLanguageZoneBody(
    polygons: JsValue, description: JsValue, name: JsValue,
    intensity: JsValue, color: JsValue, year: JsValue): (r: Result<JsValue, ApiError>)
    ensures r.Ok? <==>
      && polygons.Array? && (forall i :: 0 <= i < |polygons.items| ==> IsValidRing(polygons.items[i]))
      && IsColor(color) && ValidateIntensity(intensity) == Pass && ValidateYear(year) == Pass
      && Truthy(description) && Truthy(name)
    ensures !polygons.Array? ==> r == Err(JsTypeError)
    ensures polygons.Array? && ValidateEachPolygon(polygons.items).Fail? ==>
      r == Err(ValidateEachPolygon(polygons.items).error)
    ensures polygons.Array? && ValidateEachPolygon(polygons.items) == Pass && ValidateColor(color).Fail? ==>
      r == Err(ValidateColor(color).error)
    ensures (polygons.Array? && ValidateEachPolygon(polygons.items) == Pass && IsColor(color)
             && ValidateIntensity(intensity).Fail?) ==> r == Err(IntensityRange)
    ensures (polygons.Array? && ValidateEachPolygon(polygons.items) == Pass && IsColor(color)
             && ValidateIntensity(intensity) == Pass && ValidateYear(year).Fail?) ==> r == Err(YearRange)
    ensures (polygons.Array? && ValidateEachPolygon(polygons.items) == Pass && IsColor(color)
             && ValidateIntensity(intensity) == Pass && ValidateYear(year) == Pass
             && !(Truthy(description) && Truthy(name))) ==> r == Err(NameOrDescriptionMissing)
    ensures r.Ok? ==> r.value == ZoneBody(polygons.items, description, name, intensity, color, year)
  {
    if !polygons.Array? then Err(JsTypeError)
    else
      match ValidateEachPolygon(polygons.items)
      case Fail(e) => Err(e)
      case Pass =>
        match ValidateColor(color)
        case Fail(e) => Err(e)
        case Pass =>
          match ValidateIntensity(intensity)
          case Fail(e) => Err(e)
          case Pass =>
            match ValidateYear(year)
            case Fail(e) => Err(e)
            case Pass =>
              if !Truthy(description) || !Truthy(name) then Err(NameOrDescriptionMissing)
              else Ok(ZoneBody(polygons.items, description, name, intensity, color, year))
  }

  /** The object `createLanguageZone` sends once every check has passed. */
  function ZoneBody(
    polygons: seq<JsValue>, description: JsValue, name: JsValue,
    intensity: JsValue, color: JsValue, year: JsValue): JsValue
  {
    Object([
      ("coords", Array(seq(|polygons|, i requires 0 <= i < |polygons| => PolygonEntry(polygons[i])))),
      ("description", description),
      ("name", name),
      ("intensity", intensity),
      ("color", color),
      ("year", year)])
  }

  lemma ZoneBodyMembers(
    polygons: seq<JsValue>, description: JsValue, name: JsValue,
    intensity: JsValue, color: JsValue, year: JsValue)
    ensures var body := ZoneBody(polygons, description, name, intensity, color, year);
      && Member(body.members, "coords").Array?
      && |Member(body.members, "coords").items| == |polygons|
      && EntryRings(Member(body.members, "coords").items) == Ok(polygons)
      && Member(body.members, "description") == description
      && Member(body.members, "name") == name
      && Member(body.members, "intensity") == intensity
      && Member(body.members, "color") == color
      && Member(body.members, "year") == year
  {
    EntryRingsOfEntries(polygons);
    var body := ZoneBody(polygons, description, name, intensity, color, year);
    MemberAt(body.members, 0);
    MemberAt(body.members, 1);
    MemberAt(body.members, 2);
    MemberAt(body.members, 3);
    MemberAt(body.members, 4);
    MemberAt(body.members, 5);
  }

  /** The zone body's `coords` holds one Polygon entry per input polygon, in
      order, each wrapping that polygon unchanged; the other members are the
      arguments as given. */
  lemma CreateLanguageZoneBodyCoords(
    polygons: JsValue, description: JsValue, name: JsValue,
    intensity: JsValue, color: JsValue, year: JsValue)
    requires CreateLanguageZoneBody(polygons, description, name, intensity, color, year).Ok?
    ensures var body := CreateLanguageZoneBody(polygons, description, name, intensity, color, year).value;
      && Member(body.members, "coords").Array?
      && |Member(body.members, "coords").items| == |polygons.items|
      && EntryRings(Member(body.members, "coords").items) == Ok(polygons.items)
      && Member(body.members, "description") == description
      && Member(body.members, "name") == name
      && Member(body.members, "intensity") == intensity
      && Member(body.members, "color") == color
      && Member(body.members, "year") == year
  {
    ZoneBodyMembers(polygons.items, description, name, intensity, color, year);
  }

  /** `baseUrl.replace(/\/$/, '')`: one trailing slash, if present, is removed. */
  function StripTrailingSlash(url: string): (r: string)
    ensures r == url || r + "/" == url
    ensures |url| > 0 && url[|url| - 1] == '/' <==> r != url
  {
    if |url| > 0 && url[|url| - 1] == '/' then url[..|url| - 1] else url
  }

  /** The client object: a fixed base URL and the JSON headers. */
  class MapApiClient {
    const baseUrl: string
    const headers: seq<(string, string)>

    /** Whatever base URL is passed, the one kept is the local default: the
        argument, with one trailing slash removed, is overwritten at once. */
    constructor (baseUrlArgument: string := DefaultBaseUrl)
      ensures baseUrl == DefaultBaseUrl
      ensures headers == [("Content-Type", "application/json"), ("Accept", "application/json")]
    {
      baseUrl := StripTrailingSlash(baseUrlArgument);
      baseUrl := DefaultBaseUrl;
      headers := [("Content-Type", "application/json"), ("Accept", "application/json")];
    }
  }
}
