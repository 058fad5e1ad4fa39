/** LanguagesZoneService: the bounding-box query, the lookups that throw when
    nothing is found, saving and the update-or-insert of a zone. */
module ZoneService {
  import opened Wrappers
  import opened Geometry
  import opened ZoneModel
  import opened ZoneRepository

  /** The exceptions the service throws. */
  datatype ServiceError =
    | InvalidBoundingBox                 // IllegalArgumentException, bad corners
    | NoZonesForYear(year: Option<int>)  // bounding-box query found nothing
    | NoAreasById(id: ObjectId)          // no document with that id
    | NoAreasByYear(year: Option<int>)   // year query found nothing

  /** Both corners present and each exactly two numbers long. No order between
      the corners' coordinates is required. */
  predicate IsValidBoundingBox(request: BoundingBoxRequest)
  {
    && request.leftTopPointLatLon.Some? && request.rightBottomPointLatLon.Some?
    && |request.leftTopPointLatLon.value| == 2 && |request.rightBottomPointLatLon.value| == 2
  }

  /** The four corners a valid request spans: x1, y1 from the left-top array
      and x2, y2 from the right-bottom one. */
  function X1(request: BoundingBoxRequest): real requires IsValidBoundingBox(request) { request.leftTopPointLatLon.value[0] }
  function Y1(request: BoundingBoxRequest): real requires IsValidBoundingBox(request) { request.leftTopPointLatLon.value[1] }
  function X2(request: BoundingBoxRequest): real requires IsValidBoundingBox(request) { request.rightBottomPointLatLon.value[0] }
  function Y2(request: BoundingBoxRequest): real requires IsValidBoundingBox(request) { request.rightBottomPointLatLon.value[1] }

  /** `getPoints`: the rectangle as a closed ring of five points,
      (x1,y1), (x1,y2), (x2,y2), (x2,y1), (x1,y1). */
  function GetPoints(request: BoundingBoxRequest): (ring: Polygon)
    requires IsValidBoundingBox(request)
    ensures |ring.points| == 5 && IsClosed(ring.points)
    ensures ring.points[0] == Point(X1(request), Y1(request))
    ensures ring.points[1] == Point(X1(request), Y2(request))
    ensures ring.points[2] == Point(X2(request), Y2(request))
    ensures ring.points[3] == Point(X2(request), Y1(request))
    ensures ring.holes == []
    ensures forall p :: p in ring.points ==>
      (p.x == X1(request) || p.x == X2(request)) && (p.y == Y1(request) || p.y == Y2(request))
    ensures forall i :: 0 <= i < 4 ==>
      ring.points[i].x == ring.points[i + 1].x || ring.points[i].y == ring.points[i + 1].y
  {
    var x1, y1 := request.leftTopPointLatLon.value[0], request.leftTopPointLatLon.value[1];
    var x2, y2 := request.rightBottomPointLatLon.value[0], request.rightBottomPointLatLon.value[1];
    Polygon([Point(x1, y1), Point(x1, y2), Point(x2, y2), Point(x2, y1), Point(x1, y1)], [])
  }

  /** The ring visits every corner of the box, so a box whose corners are given
      the other way round (x2 < x1 or y2 < y1) is accepted and spans the same
      rectangle as the box with its corners swapped. */
  lemma GetPointsCorners(request: BoundingBoxRequest)
    requires IsValidBoundingBox(request)
    ensures var swapped := BoundingBoxRequest(request.rightBottomPointLatLon, request.leftTopPointLatLon);
      && IsValidBoundingBox(swapped)
      && (set p | p in GetPoints(request).points)
         == {Point(X1(request), Y1(request)), Point(X1(request), Y2(request)),
             Point(X2(request), Y1(request)), Point(X2(request), Y2(request))}
         == (set p | p in GetPoints(swapped).points)
  {
    var swapped := BoundingBoxRequest(request.rightBottomPointLatLon, request.leftTopPointLatLon);
    var a := GetPoints(request).points;
    var b := GetPoints(swapped).points;
    var corners := {Point(X1(request), Y1(request)), Point(X1(request), Y2(request)),
                    Point(X2(request), Y1(request)), Point(X2(request), Y2(request))};
    assert a[0] in corners && a[1] in corners && a[2] in corners && a[3] in corners && a[4] in corners;
    assert b[0] in corners && b[1] in corners && b[2] in corners && b[3] in corners && b[4] in corners;
    assert forall c :: c in corners ==> c in a && c in b by {
      assert Point(X1(request), Y1(request)) == a[0] == b[2];
      assert Point(X1(request), Y2(request)) == a[1] == b[3];
      assert Point(X2(request), Y2(request)) == a[2] == b[0];
      assert Point(X2(request), Y1(request)) == a[3] == b[1];
    }
  }

  /** `getLanguagesZone`: the zones of `year` within the request's rectangle.
      The repository query this relies on is not declared in the repository
      (its declaration is commented out), so it is a parameter here: it is
      consulted only after the bounding box has passed the guard, and only with
      the year and the ring from GetPoints. */
  function GetLanguagesZone(
    request: BoundingBoxRequest, year: Option<int>,
    findAllByYearAndCoordsWithin: (Option<int>, Polygon) -> Option<seq<LanguagesZone>>)
    : (r: Result<seq<LanguagesZone>, ServiceError>)
    ensures r == Err(InvalidBoundingBox) <==> !IsValidBoundingBox(request)
    ensures IsValidBoundingBox(request) ==>
      (r == Err(NoZonesForYear(year)) <==> findAllByYearAndCoordsWithin(year, GetPoints(request)).None?)
    ensures r.Ok? <==> IsValidBoundingBox(request) && findAllByYearAndCoordsWithin(year, GetPoints(request)).Some?
    ensures r.Ok? ==> r.value == findAllByYearAndCoordsWithin(year, GetPoints(request)).value
  {
    if !IsValidBoundingBox(request) then
      Err(InvalidBoundingBox)
    else
      var boundingBox := GetPoints(request);
      match findAllByYearAndCoordsWithin(year, boundingBox)
      case None => Err(NoZonesForYear(year))
      case Some(zones) => Ok(zones)
  }

  /** An invalid request is rejected whatever the query would have answered:
      the guard runs before the repository is asked. */
  lemma GuardBeforeQuery(
    request: BoundingBoxRequest, year: Option<int>,
    q1: (Option<int>, Polygon) -> Option<seq<LanguagesZone>>,
    q2: (Option<int>, Polygon) -> Option<seq<LanguagesZone>>)
    requires !IsValidBoundingBox(request)
    ensures GetLanguagesZone(request, year, q1) == GetLanguagesZone(request, year, q2) == Err(InvalidBoundingBox)
  {
  }

  /** The record `updateLanguageZone` saves when a zone with that id exists:
      the stored record with name, description, coords, intensity, color and
      year taken from the new zone, and its own id kept. */
  function CopyFields(area: LanguagesZone, newZone: LanguagesZone): (r: LanguagesZone)
    ensures r.id == area.id
    ensures r.(id := newZone.id) == newZone
  {
    area.(name := newZone.name)
        .(description := newZone.description)
        .(coords := newZone.coords)
        .(intensity := newZone.intensity)
        .(color := newZone.color)
        .(year := newZone.year)
  }

  /** The record `updateLanguageZone` saves, as a function of the store before the call. */
  function UpsertedRecord(zones: map<ObjectId, LanguagesZone>, id: ObjectId, newZone: LanguagesZone)
    : LanguagesZone
  {
    if id in zones then CopyFields(zones[id], newZone) else newZone.(id := Some(id))
  }

  /** Updating twice with the same zone is the same as updating once. */
  lemma UpsertIdempotent(zones: map<ObjectId, LanguagesZone>, id: ObjectId, newZone: LanguagesZone)
    ensures var once := UpsertedRecord(zones, id, newZone);
      UpsertedRecord(zones[id := once], id, newZone) == once
  {
  }

  class LanguagesZoneService {
    const repository: LanguagesZoneRepository

    constructor (repository: LanguagesZoneRepository)
      ensures this.repository == repository
    {
      this.repository := repository;
    }

    /** `getLanguageZoneById`: the stored zone, or an error when the id is absent. */
    function GetLanguageZoneById(id: ObjectId): (r: Result<LanguagesZone, ServiceError>)
      reads repository
      ensures r == Err(NoAreasById(id)) <==> id !in repository.zones
      ensures r.Ok? <==> id in repository.zones
      ensures r.Ok? ==> r.value == repository.zones[id]
    {
      match repository.FindById(id)
      case None => Err(NoAreasById(id))
      case Some(zone) => Ok(zone)
    }

    /** `getLanguagesZoneByYear`: the stored zones of that year, or an error
        when there is none. */
    function GetLanguagesZoneByYear(year: Option<int>): (r: Result<seq<LanguagesZone>, ServiceError>)
      reads repository
      requires repository.Valid()
      ensures r == Err(NoAreasByYear(year)) <==> forall k :: k in repository.zones ==> repository.zones[k].year != year
      ensures r.Ok? <==> exists k :: k in repository.zones && repository.zones[k].year == year
      ensures r.Ok? ==> forall z :: z in r.value <==> z in repository.zones.Values && z.year == year
      ensures r.Ok? ==> forall i, j :: 0 <= i < j < |r.value| ==> r.value[i] != r.value[j]
    {
      match repository.FindAllByYear(year)
      case None => Err(NoAreasByYear(year))
      case Some(zones) => Ok(zones)
    }

    /** `saveLanguageZone`: hands the zone to the repository as it is. */
    method SaveLanguageZone(languagesZone: LanguagesZone) returns (saved: LanguagesZone)
      requires repository.Valid()
      modifies repository
      ensures repository.Valid()
      ensures saved.id.Some? && repository.zones == old(repository.zones)[saved.id.value := saved]
      ensures languagesZone.id.Some? ==> saved == languagesZone
      ensures languagesZone.id.None? ==>
        saved.id.value !in old(repository.zones) && saved == languagesZone.(id := saved.id)
    {
      saved := repository.Save(languagesZone);
    }

    /** `updateLanguageZone`: when a zone with `id` is stored, its fields are
        overwritten from `newLanguagesZone` and it is saved under its own id;
        otherwise `newLanguagesZone` is given `id` and saved. Either way the
        entry for `id` is the only one that changes. */
    method UpdateLanguageZone(id: ObjectId, newLanguagesZone: LanguagesZone) returns (saved: LanguagesZone)
      requires repository.Valid()
      modifies repository
      ensures repository.Valid()
      ensures saved == UpsertedRecord(old(repository.zones), id, newLanguagesZone)
      ensures saved.id == Some(id)
      ensures saved.(id := newLanguagesZone.id) == newLanguagesZone
      ensures repository.zones == old(repository.zones)[id := saved]
      ensures forall k :: k != id ==>
        (k in repository.zones <==> k in old(repository.zones))
        && (k in repository.zones ==> repository.zones[k] == old(repository.zones)[k])
      ensures repository.order ==
        if id in old(repository.zones) then old(repository.order) else old(repository.order) + [id]
    {
      var found := repository.FindById(id);
      if found.Some? {
        var area := found.value;
        area := area.(name := newLanguagesZone.name);
        area := area.(description := newLanguagesZone.description);
        area := area.(coords := newLanguagesZone.coords);
        area := area.(intensity := newLanguagesZone.intensity);
        area := area.(color := newLanguagesZone.color);
        area := area.(year := newLanguagesZone.year);
        saved := repository.Save(area);
      } else {
        var zone := newLanguagesZone.(id := Some(id));
        saved := repository.Save(zone);
      }
    }
  }
}
