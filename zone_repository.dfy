/** The zone repository: a document store keyed by id. The model keeps the
    ids in insertion order and lists query results in that order; the store
    itself promises no order, and no contract here depends on one. */
module ZoneRepository {
  import opened Wrappers
  import opened ZoneModel

  /** The zones among `ids` (looked up in `zones`) whose year is `year`, in the
      order of `ids`. */
  function ZonesWithYear(ids: seq<ObjectId>, zones: map<ObjectId, LanguagesZone>, year: Option<int>)
    : (r: seq<LanguagesZone>)
    ensures |r| <= |ids|
    ensures forall z :: z in r ==> z.year == year && z in zones.Values
    ensures forall i :: 0 <= i < |ids| && ids[i] in zones && zones[ids[i]].year == year ==> zones[ids[i]] in r
    ensures (forall k :: k in zones ==> zones[k].id == Some(k)) ==>
      forall z :: z in r ==> z.id.Some? && z.id.value in ids
    ensures (forall k :: k in zones ==> zones[k].id == Some(k))
            && (forall i, j :: 0 <= i < j < |ids| ==> ids[i] != ids[j]) ==>
      forall i, j :: 0 <= i < j < |r| ==> r[i] != r[j]
  {
    if ids == [] then []
    else
      var rest := ZonesWithYear(ids[1..], zones, year);
      assert forall i :: 1 <= i < |ids| ==> ids[i] == ids[1..][i - 1];
      if ids[0] in zones && zones[ids[0]].year == year then
        var r := [zones[ids[0]]] + rest;
        assert (forall k :: k in zones ==> zones[k].id == Some(k))
               && (forall i, j :: 0 <= i < j < |ids| ==> ids[i] != ids[j]) ==>
          forall i, j :: 0 <= i < j < |r| ==> r[i] != r[j] by {
          if (forall k :: k in zones ==> zones[k].id == Some(k))
             && (forall i, j :: 0 <= i < j < |ids| ==> ids[i] != ids[j]) {
            assert ids[0] !in ids[1..];
            assert zones[ids[0]] !in rest;
            forall i, j | 0 <= i < j < |r| ensures r[i] != r[j] {
              if i == 0 {
                assert r[j] == rest[j - 1];
              } else {
                assert r[i] == rest[i - 1] && r[j] == rest[j - 1];
              }
            }
          }
        }
        r
      else rest
  }

  /** A number larger than every id in `ids`. */
  function IdAfter(ids: seq<ObjectId>): (r: ObjectId)
    ensures forall i :: 0 <= i < |ids| ==> ids[i] < r
  {
    if ids == [] then 0
    else
      var rest := IdAfter(ids[1..]);
      assert forall i :: 1 <= i < |ids| ==> ids[i] == ids[1..][i - 1];
      if ids[0] < rest then rest else ids[0] + 1
  }

  class LanguagesZoneRepository {
    /** The stored documents, by id. */
    var zones: map<ObjectId, LanguagesZone>
    /** The ids of the stored documents, in insertion order. */
    var order: seq<ObjectId>

    /** Every document carries its own key as its id, and `order` lists each
        key exactly once. */
    ghost predicate Valid()
      reads this
    {
      && (forall k :: k in zones ==> zones[k].id == Some(k))
      && (forall k :: k in zones <==> k in order)
      && (forall i, j :: 0 <= i < j < |order| ==> order[i] != order[j])
    }

    constructor ()
      ensures Valid() && zones == map[] && order == []
    {
      zones := map[];
      order := [];
    }

    /** `findById`: the document with that id, if there is one. */
    function FindById(id: ObjectId): (r: Option<LanguagesZone>)
      reads this
      ensures r.Some? <==> id in zones
      ensures r.Some? ==> r.value == zones[id]
    {
      if id in zones then Some(zones[id]) else None
    }

    /** `findAllByYear`: the documents whose year is `year`, listed in the
        model's id order; an empty answer is reported as None. */
    function FindAllByYear(year: Option<int>): (r: Option<seq<LanguagesZone>>)
      reads this
      requires Valid()
      ensures r.None? <==> forall k :: k in zones ==> zones[k].year != year
      ensures r.Some? ==> forall z :: z in r.value <==> z in zones.Values && z.year == year
      ensures r.Some? ==> forall i, j :: 0 <= i < j < |r.value| ==> r.value[i] != r.value[j]
    {
      var found := ZonesWithYear(order, zones, year);
      assert forall k :: k in zones && zones[k].year == year ==> zones[k] in found by {
        forall k | k in zones && zones[k].year == year ensures zones[k] in found {
          var i :| 0 <= i < |order| && order[i] == k;
        }
      }
      if found == [] then None
      else
        assert found[0] in zones.Values;
        assert exists k :: k in zones && zones[k] == found[0];
        Some(found)
    }

    /** `save`: stores `entity` under its id, replacing any document with that
        id; an entity without an id is first given one no document uses. */
    method Save(entity: LanguagesZone) returns (saved: LanguagesZone)
      requires Valid()
      modifies this
      ensures Valid()
      ensures saved.id.Some? && zones == old(zones)[saved.id.value := saved]
      ensures entity.id.Some? ==> saved == entity
      ensures entity.id.None? ==> saved.id.value !in old(zones) && saved == entity.(id := saved.id)
      ensures order == if saved.id.value in old(zones) then old(order) else old(order) + [saved.id.value]
    {
      var key: ObjectId;
      if entity.id.Some? {
        key := entity.id.value;
        saved := entity;
      } else {
        key := IdAfter(order);
        saved := entity.(id := Some(key));
      }
      if key !in zones {
        order := order + [key];
      }
      zones := zones[key := saved];
    }
  }
}
