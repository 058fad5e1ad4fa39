/** The token streams the two GeoJSON Polygon serializers write (section 3.1.6
    of RFC 7946: a Polygon object's "coordinates" is an array of linear rings;
    section 3.1.1: a position is an array of numbers, x (longitude) first),
    together with a reader for those streams, used as the independent partner
    of the writers. */
module GeoJsonFormat {
  import opened Wrappers
  import opened Geometry
  import opened JsonGenerator

  /** One position: `[x, y]`. */
  function PositionTokens(p: Point): seq<Token>
  {
    [StartArray, NumberValue(p.x), NumberValue(p.y), EndArray]
  }

  /** The positions of a ring, one after the other, in order. */
  function RingTokens(points: seq<Point>): seq<Token>
  {
    if points == [] then [] else PositionTokens(points[0]) + RingTokens(points[1..])
  }

  /** Everything before the ring's positions: the object, its "type" member, the
      "coordinates" member and the single ring's opening bracket. */
  const PolygonHeader: seq<Token> :=
    [StartObject, FieldName("type"), StringValue("Polygon"), FieldName("coordinates"), StartArray, StartArray]

  /** Everything after the ring's positions: close the ring, the coordinates, the object. */
  const PolygonTrailer: seq<Token> := [EndArray, EndArray, EndObject]

  /** A Polygon object whose coordinates hold exactly one ring, the given points. */
  function PolygonTokens(p: Polygon): seq<Token>
  {
    PolygonHeader + RingTokens(p.points) + PolygonTrailer
  }

  /** Polygon objects one after another, in list order. */
  function PolygonsTokens(ps: seq<Polygon>): seq<Token>
  {
    if ps == [] then [] else PolygonTokens(ps[0]) + PolygonsTokens(ps[1..])
  }

  /** A JSON array of Polygon objects. */
  function PolygonListTokens(ps: seq<Polygon>): seq<Token>
  {
    [StartArray] + PolygonsTokens(ps) + [EndArray]
  }

  /** The number of number tokens in a stream. */
  function CountNumbers(ts: seq<Token>): nat
  {
    if ts == [] then 0 else (if ts[0].NumberValue? then 1 else 0) + CountNumbers(ts[1..])
  }

  // ---------------------------------------------------------------------------
  // Appending one more element, the way the serializers' loops do.

  lemma {:induction false} RingTokensSnoc(points: seq<Point>, p: Point)
    ensures RingTokens(points + [p]) == RingTokens(points) + PositionTokens(p)
  {
    if points == [] {
      assert [] + [p] == [p];
    } else {
      assert (points + [p])[0] == points[0];
      assert (points + [p])[1..] == points[1..] + [p];
      RingTokensSnoc(points[1..], p);
    }
  }

  lemma {:induction false} PolygonsTokensSnoc(ps: seq<Polygon>, p: Polygon)
    ensures PolygonsTokens(ps + [p]) == PolygonsTokens(ps) + PolygonTokens(p)
  {
    if ps == [] {
      assert [] + [p] == [p];
    } else {
      assert (ps + [p])[0] == ps[0];
      assert (ps + [p])[1..] == ps[1..] + [p];
      PolygonsTokensSnoc(ps[1..], p);
    }
  }

  lemma {:induction false} CountNumbersAppend(a: seq<Token>, b: seq<Token>)
    ensures CountNumbers(a + b) == CountNumbers(a) + CountNumbers(b)
  {
    if a == [] {
      assert a + b == b;
    } else {
      assert (a + b)[0] == a[0];
      assert (a + b)[1..] == a[1..] + b;
      CountNumbersAppend(a[1..], b);
    }
  }

  // The serializers' write calls, one group at a time: each lemma says that the
  // tokens a group of calls appends extend the stream by the next piece of the
  // format.

  lemma AppendHeader(before: seq<Token>)
    ensures before + [StartObject] + [FieldName("type"), StringValue("Polygon")]
              + [FieldName("coordinates"), StartArray] + [StartArray]
         == before + PolygonHeader
  {
  }

  lemma AppendPosition(header: seq<Token>, points: seq<Point>, i: nat)
    requires i < |points|
    ensures header + RingTokens(points[..i]) + [StartArray] + [NumberValue(points[i].x)]
              + [NumberValue(points[i].y)] + [EndArray]
         == header + RingTokens(points[..i + 1])
  {
    RingTokensSnoc(points[..i], points[i]);
    TakeSnoc(points, i);
  }

  lemma AppendTrailer(before: seq<Token>, p: Polygon)
    ensures before + PolygonHeader + RingTokens(p.points[..|p.points|]) + [EndArray] + [EndArray] + [EndObject]
         == before + PolygonTokens(p)
  {
    TakeAll(p.points);
  }

  lemma AppendPolygon(start: seq<Token>, ps: seq<Polygon>, k: nat)
    requires k < |ps|
    ensures start + PolygonsTokens(ps[..k]) + PolygonTokens(ps[k]) == start + PolygonsTokens(ps[..k + 1])
  {
    PolygonsTokensSnoc(ps[..k], ps[k]);
    TakeSnoc(ps, k);
  }

  lemma AppendListEnd(before: seq<Token>, ps: seq<Polygon>)
    ensures before + [StartArray] + PolygonsTokens(ps[..|ps|]) + [EndArray] == before + PolygonListTokens(ps)
  {
    TakeAll(ps);
  }

  // ---------------------------------------------------------------------------
  // The exact shape of one Polygon object.

  /** The ring holds four tokens per point, and the k-th group of four is the
      k-th point as `[x, y]`: positions in input order, two numbers each. */
  lemma {:induction false} RingTokensAt(points: seq<Point>, k: nat)
    requires k < |points|
    ensures |RingTokens(points)| == 4 * |points|
    ensures RingTokens(points)[4 * k .. 4 * k + 4]
         == [StartArray, NumberValue(points[k].x), NumberValue(points[k].y), EndArray]
  {
    RingTokensLength(points);
    if k > 0 {
      RingTokensAt(points[1..], k - 1);
      var rest := RingTokens(points[1..]);
      assert RingTokens(points) == PositionTokens(points[0]) + rest;
      assert RingTokens(points)[4 * k .. 4 * k + 4] == rest[4 * (k - 1) .. 4 * (k - 1) + 4];
    }
  }

  lemma {:induction false} RingTokensLength(points: seq<Point>)
    ensures |RingTokens(points)| == 4 * |points|
  {
    if points != [] {
      RingTokensLength(points[1..]);
    }
  }

  /** A Polygon object is the six header tokens, four tokens per point and the
      three trailer tokens: one ring only, no position added or dropped. */
  lemma PolygonTokensShape(p: Polygon)
    ensures |PolygonTokens(p)| == 9 + 4 * |p.points|
    ensures PolygonTokens(p)[..6] == PolygonHeader
    ensures PolygonTokens(p)[6 + 4 * |p.points|..] == PolygonTrailer
    ensures forall k :: 0 <= k < |p.points| ==>
      PolygonTokens(p)[6 + 4 * k .. 10 + 4 * k]
        == [StartArray, NumberValue(p.points[k].x), NumberValue(p.points[k].y), EndArray]
  {
    RingTokensLength(p.points);
    var ring := RingTokens(p.points);
    assert PolygonTokens(p) == PolygonHeader + ring + PolygonTrailer;
    forall k | 0 <= k < |p.points|
      ensures PolygonTokens(p)[6 + 4 * k .. 10 + 4 * k]
        == [StartArray, NumberValue(p.points[k].x), NumberValue(p.points[k].y), EndArray]
    {
      RingTokensAt(p.points, k);
      assert PolygonTokens(p)[6 + 4 * k .. 10 + 4 * k] == ring[4 * k .. 4 * k + 4];
    }
  }

  // ---------------------------------------------------------------------------
  // Nesting.

  lemma PositionTokensNeutral(p: Point)
    ensures Neutral(PositionTokens(p))
  {
    var body := [NumberValue(p.x), NumberValue(p.y)];
    forall stack: seq<Frame> ensures Nest(body, stack) == Some(stack) {
      assert Nest(body, stack) == Nest(body[1..], stack);
      assert Nest(body[1..], stack) == Nest([], stack);
    }
    NeutralWrap(StartArray, body, EndArray);
    assert [StartArray] + body + [EndArray] == PositionTokens(p);
  }

  lemma {:induction false} RingTokensNeutral(points: seq<Point>)
    ensures Neutral(RingTokens(points))
  {
    if points == [] {
      forall stack: seq<Frame> ensures Nest([], stack) == Some(stack) { }
    } else {
      PositionTokensNeutral(points[0]);
      RingTokensNeutral(points[1..]);
      NeutralAppend(PositionTokens(points[0]), RingTokens(points[1..]));
    }
  }

  /** Start and end tokens of a Polygon object are balanced and properly
      nested, whatever the stack it is written into. */
  lemma PolygonTokensNeutral(p: Polygon)
    ensures Neutral(PolygonTokens(p))
    ensures Balanced(PolygonTokens(p))
  {
    var ring := RingTokens(p.points);
    RingTokensNeutral(p.points);
    NeutralWrap(StartArray, ring, EndArray);
    var rings := [StartArray] + ring + [EndArray];
    NeutralWrap(StartArray, rings, EndArray);
    var coords := [StartArray] + rings + [EndArray];
    var fields := [FieldName("type"), StringValue("Polygon"), FieldName("coordinates")];
    forall stack: seq<Frame> ensures Nest(fields, stack) == Some(stack) {
      assert Nest(fields, stack) == Nest(fields[1..], stack);
      assert Nest(fields[1..], stack) == Nest(fields[2..], stack);
      assert Nest(fields[2..], stack) == Nest([], stack);
    }
    NeutralAppend(fields, coords);
    NeutralWrap(StartObject, fields + coords, EndObject);
    assert [StartObject] + (fields + coords) + [EndObject] == PolygonTokens(p);
  }

  lemma {:induction false} PolygonsTokensNeutral(ps: seq<Polygon>)
    ensures Neutral(PolygonsTokens(ps))
  {
    if ps == [] {
      forall stack: seq<Frame> ensures Nest([], stack) == Some(stack) { }
    } else {
      PolygonTokensNeutral(ps[0]);
      PolygonsTokensNeutral(ps[1..]);
      NeutralAppend(PolygonTokens(ps[0]), PolygonsTokens(ps[1..]));
    }
  }

  /** The array of Polygon objects is balanced and properly nested for any list. */
  lemma PolygonListTokensBalanced(ps: seq<Polygon>)
    ensures Balanced(PolygonListTokens(ps))
  {
    PolygonsTokensNeutral(ps);
    NeutralWrap(StartArray, PolygonsTokens(ps), EndArray);
  }

  // ---------------------------------------------------------------------------
  // The list: segments, the empty case, and the number count.

  /** The empty list is written as `[]`. */
  lemma PolygonListTokensEmpty()
    ensures PolygonListTokens([]) == [StartArray, EndArray]
  {
  }

  /** Where the k-th Polygon object starts inside the list's output. */
  function SegmentStart(ps: seq<Polygon>, k: nat): nat
    requires k <= |ps|
  {
    1 + |PolygonsTokens(ps[..k])|
  }

  /** The list output starts with `[` and ends with `]`, whatever the list. */
  lemma PolygonListEnds(ps: seq<Polygon>)
    ensures |PolygonListTokens(ps)| >= 2
    ensures PolygonListTokens(ps)[0] == StartArray
    ensures PolygonListTokens(ps)[|PolygonListTokens(ps)| - 1] == EndArray
  {
  }

  /** The k-th segment between the list's brackets is token for token the
      single Polygon serializer's output for the k-th polygon, the segments
      following each other in list order. */
  lemma PolygonListSegment(ps: seq<Polygon>, k: nat)
    requires k < |ps|
    ensures SegmentStart(ps, k + 1) == SegmentStart(ps, k) + |PolygonTokens(ps[k])|
    ensures SegmentStart(ps, k + 1) < |PolygonListTokens(ps)|
    ensures PolygonListTokens(ps)[SegmentStart(ps, k) .. SegmentStart(ps, k + 1)] == PolygonTokens(ps[k])
  {
    var before := PolygonsTokens(ps[..k]);
    var mine := PolygonTokens(ps[k]);
    var after := PolygonsTokens(ps[k + 1..]);
    PolygonsTokensSplit(ps, k);
    assert PolygonsTokens(ps[..k + 1]) == before + mine by {
      PolygonsTokensSnoc(ps[..k], ps[k]);
      TakeSnoc(ps, k);
    }
    var all := [StartArray] + (before + (mine + after)) + [EndArray];
    assert PolygonListTokens(ps) == all;
    assert SegmentStart(ps, k) == 1 + |before|;
    assert SegmentStart(ps, k + 1) == 1 + |before| + |mine|;
    MiddleSlice(StartArray, before, mine, after, EndArray);
  }

  /** The middle piece of a bracketed three-part concatenation. */
  lemma MiddleSlice<T>(x: T, a: seq<T>, m: seq<T>, r: seq<T>, y: T)
    ensures ([x] + (a + (m + r)) + [y])[1 + |a| .. 1 + |a| + |m|] == m
  {
    var all := [x] + (a + (m + r)) + [y];
    forall i | 0 <= i < |m| ensures all[1 + |a| + i] == m[i] {
      assert all[1 + |a| + i] == (a + (m + r))[|a| + i];
    }
  }

  /** The polygons before the k-th, the k-th, and the ones after it. */
  lemma {:induction false} PolygonsTokensSplit(ps: seq<Polygon>, k: nat)
    requires k < |ps|
    ensures PolygonsTokens(ps) == PolygonsTokens(ps[..k]) + (PolygonTokens(ps[k]) + PolygonsTokens(ps[k + 1..]))
  {
    if k > 0 {
      var tail := ps[1..];
      PolygonsTokensSplit(tail, k - 1);
      assert tail[..k - 1] == ps[..k][1..] && tail[k - 1] == ps[k] && tail[k..] == ps[k + 1..];
      assert PolygonsTokens(ps[..k]) == PolygonTokens(ps[0]) + PolygonsTokens(tail[..k - 1]);
      Assoc3(PolygonTokens(ps[0]), PolygonsTokens(tail[..k - 1]), PolygonTokens(ps[k]) + PolygonsTokens(ps[k + 1..]));
    }
  }

  lemma TakeSnoc<T>(s: seq<T>, k: nat)
    requires k < |s|
    ensures s[..k + 1] == s[..k] + [s[k]]
  {
  }

  lemma TakeAll<T>(s: seq<T>)
    ensures s[..|s|] == s
  {
  }

  lemma Assoc3<T>(a: seq<T>, b: seq<T>, c: seq<T>)
    ensures a + (b + c) == a + b + c
  {
  }

  lemma Assoc4<T>(a: seq<T>, b: seq<T>, c: seq<T>, d: seq<T>)
    ensures a + (b + (c + d)) == a + b + c + d
  {
  }

  /** The list output holds two numbers per point, over all polygons. */
  lemma {:induction false} PolygonsTokensNumbers(ps: seq<Polygon>)
    ensures CountNumbers(PolygonsTokens(ps)) == 2 * TotalPoints(ps)
  {
    if ps != [] {
      PolygonsTokensNumbers(ps[1..]);
      RingTokensNumbers(ps[0].points);
      var ring := RingTokens(ps[0].points);
      CountNumbersAppend(PolygonHeader, ring);
      CountNumbersAppend(PolygonHeader + ring, PolygonTrailer);
      CountNumbersAppend(PolygonTokens(ps[0]), PolygonsTokens(ps[1..]));
    }
  }

  lemma {:induction false} RingTokensNumbers(points: seq<Point>)
    ensures CountNumbers(RingTokens(points)) == 2 * |points|
  {
    if points != [] {
      RingTokensNumbers(points[1..]);
      var pos := PositionTokens(points[0]);
      assert CountNumbers(pos) == 2 by {
        var a, b := NumberValue(points[0].x), NumberValue(points[0].y);
        assert pos[1..] == [a, b, EndArray];
        assert [a, b, EndArray][1..] == [b, EndArray];
        assert [b, EndArray][1..] == [EndArray];
        assert [EndArray][1..] == [];
        assert CountNumbers([EndArray]) == 0;
        assert CountNumbers([b, EndArray]) == 1;
        assert CountNumbers([a, b, EndArray]) == 2;
      }
      CountNumbersAppend(pos, RingTokens(points[1..]));
    }
  }

  lemma PolygonListTokensNumbers(ps: seq<Polygon>)
    ensures CountNumbers(PolygonListTokens(ps)) == 2 * TotalPoints(ps)
  {
    PolygonsTokensNumbers(ps);
    CountNumbersAppend([StartArray], PolygonsTokens(ps));
    CountNumbersAppend([StartArray] + PolygonsTokens(ps), [EndArray]);
  }

  // ---------------------------------------------------------------------------
  // Reading the streams back.

  /** Reads as many `[x, y]` positions as the stream starts with. */
  function ParsePositions(ts: seq<Token>): (r: (seq<Point>, seq<Token>))
    ensures |r.1| <= |ts|
  {
    if |ts| >= 4 && ts[0] == StartArray && ts[1].NumberValue? && ts[2].NumberValue? && ts[3] == EndArray then
      var (ps, rest) := ParsePositions(ts[4..]);
      ([Point(ts[1].number, ts[2].number)] + ps, rest)
    else
      ([], ts)
  }

  /** Reads one Polygon object with a single ring from the front of a stream;
      the polygon read has no interior rings. */
  function ParsePolygon(ts: seq<Token>): (r: Option<(Polygon, seq<Token>)>)
    ensures r.Some? ==> |r.value.1| < |ts| && r.value.0.holes == []
  {
    if |ts| >= 6 && ts[..6] == PolygonHeader then
      var (ps, rest) := ParsePositions(ts[6..]);
      if |rest| >= 3 && rest[..3] == PolygonTrailer then Some((Polygon(ps, []), rest[3..])) else None
    else
      None
  }

  /** Reads as many Polygon objects as the stream starts with. */
  function ParsePolygons(ts: seq<Token>): (r: (seq<Polygon>, seq<Token>))
    ensures forall k :: 0 <= k < |r.0| ==> r.0[k].holes == []
    decreases |ts|
  {
    match ParsePolygon(ts)
    case None => ([], ts)
    case Some((p, rest)) =>
      var (ps, rest') := ParsePolygons(rest);
      ([p] + ps, rest')
  }

  /** Reads an array of Polygon objects that makes up the whole stream. */
  function ParsePolygonList(ts: seq<Token>): Option<seq<Polygon>>
  {
    if |ts| >= 1 && ts[0] == StartArray then
      var (ps, rest) := ParsePolygons(ts[1..]);
      if rest == [EndArray] then Some(ps) else None
    else
      None
  }

  lemma {:induction false} ParsePositionsOfRing(points: seq<Point>, rest: seq<Token>)
    requires rest == [] || rest[0] != StartArray
    ensures ParsePositions(RingTokens(points) + rest) == (points, rest)
  {
    if points == [] {
      assert RingTokens(points) + rest == rest;
    } else {
      var pos, tail := PositionTokens(points[0]), RingTokens(points[1..]) + rest;
      Assoc3(pos, RingTokens(points[1..]), rest);
      var ts := pos + tail;
      assert ts[..4] == pos && ts[4..] == tail;
      ParsePositionsOfRing(points[1..], rest);
      assert [points[0]] + points[1..] == points;
    }
  }

  /** A stream that starts with a position is that position's tokens and the rest. */
  lemma PositionPrefix(ts: seq<Token>)
    requires |ts| >= 4 && ts[0] == StartArray && ts[1].NumberValue? && ts[2].NumberValue? && ts[3] == EndArray
    ensures ts == PositionTokens(Point(ts[1].number, ts[2].number)) + ts[4..]
  {
    assert ts[..4] == PositionTokens(Point(ts[1].number, ts[2].number));
    assert ts == ts[..4] + ts[4..];
  }

  lemma {:induction false} ParsePositionsCanonical(ts: seq<Token>)
    ensures RingTokens(ParsePositions(ts).0) + ParsePositions(ts).1 == ts
  {
    if |ts| >= 4 && ts[0] == StartArray && ts[1].NumberValue? && ts[2].NumberValue? && ts[3] == EndArray {
      var p := Point(ts[1].number, ts[2].number);
      var tail := ts[4..];
      ParsePositionsCanonical(tail);
      var ps, rest := ParsePositions(tail).0, ParsePositions(tail).1;
      assert ParsePositions(ts) == ([p] + ps, rest);
      assert RingTokens([p] + ps) == PositionTokens(p) + RingTokens(ps) by {
        assert ([p] + ps)[0] == p && ([p] + ps)[1..] == ps;
      }
      PositionPrefix(ts);
      Assoc3(PositionTokens(p), RingTokens(ps), rest);
    }
  }

  lemma ParsePolygonOfTokens(p: Polygon, rest: seq<Token>)
    requires rest == [] || rest[0] != StartArray
    ensures ParsePolygon(PolygonTokens(p) + rest) == Some((Exterior(p), rest))
  {
    var ts := PolygonTokens(p) + rest;
    var ring := RingTokens(p.points);
    assert ts == PolygonHeader + (ring + (PolygonTrailer + rest));
    assert ts[..6] == PolygonHeader;
    assert ts[6..] == ring + (PolygonTrailer + rest);
    ParsePositionsOfRing(p.points, PolygonTrailer + rest);
    assert (PolygonTrailer + rest)[..3] == PolygonTrailer;
    assert (PolygonTrailer + rest)[3..] == rest;
  }

  lemma ParsePolygonCanonical(ts: seq<Token>)
    requires ParsePolygon(ts).Some?
    ensures PolygonTokens(ParsePolygon(ts).value.0) + ParsePolygon(ts).value.1 == ts
  {
    var (ps, rest) := ParsePositions(ts[6..]);
    ParsePositionsCanonical(ts[6..]);
    var ring, rest' := RingTokens(ps), rest[3..];
    assert rest == PolygonTrailer + rest' by { assert rest == rest[..3] + rest[3..]; }
    assert ts == PolygonHeader + (ring + (PolygonTrailer + rest')) by { assert ts == ts[..6] + ts[6..]; }
    Assoc4(PolygonHeader, ring, PolygonTrailer, rest');
  }

  lemma {:induction false} ParsePolygonsOfTokens(ps: seq<Polygon>, rest: seq<Token>)
    requires rest == [] || rest[0] == EndArray
    ensures ParsePolygons(PolygonsTokens(ps) + rest) == (Exteriors(ps), rest)
  {
    if ps == [] {
      assert PolygonsTokens(ps) + rest == rest;
      if |rest| >= 6 {
        assert rest[..6][0] == EndArray;
      }
    } else {
      var ts := PolygonsTokens(ps) + rest;
      var tail := PolygonsTokens(ps[1..]) + rest;
      Assoc3(PolygonTokens(ps[0]), PolygonsTokens(ps[1..]), rest);
      var tailStart := tail == [] || tail[0] != StartArray;
      assert tailStart by {
        if ps[1..] != [] {
          assert tail[0] == PolygonTokens(ps[1..][0])[0] == StartObject;
        } else {
          assert tail == rest;
        }
      }
      ParsePolygonOfTokens(ps[0], tail);
      ParsePolygonsOfTokens(ps[1..], rest);
      assert [Exterior(ps[0])] + Exteriors(ps[1..]) == Exteriors(ps);
    }
  }

  lemma {:induction false} ParsePolygonsCanonical(ts: seq<Token>)
    ensures PolygonsTokens(ParsePolygons(ts).0) + ParsePolygons(ts).1 == ts
    decreases |ts|
  {
    var r := ParsePolygon(ts);
    if r.Some? {
      var p, rest := r.value.0, r.value.1;
      ParsePolygonCanonical(ts);
      ParsePolygonsCanonical(rest);
      var ps := ParsePolygons(rest).0;
      assert ParsePolygons(ts) == ([p] + ps, ParsePolygons(rest).1);
      assert ([p] + ps)[0] == p && ([p] + ps)[1..] == ps;
      assert PolygonsTokens([p] + ps) == PolygonTokens(p) + PolygonsTokens(ps);
    }
  }

  /** Reading a single Polygon object back gives the polygon written, and a
      stream reads as exactly one Polygon object only if it is that object's
      output: the serialized form is faithful and canonical for polygons
      without interior rings. */
  lemma PolygonRoundTrip(ts: seq<Token>, p: Polygon)
    ensures ParsePolygon(ts) == Some((p, [])) <==> ts == PolygonTokens(p) && p.holes == []
  {
    if ts == PolygonTokens(p) {
      ParsePolygonOfTokens(p, []);
      assert PolygonTokens(p) + [] == PolygonTokens(p);
    }
    if ParsePolygon(ts) == Some((p, [])) {
      ParsePolygonCanonical(ts);
      assert PolygonTokens(p) + [] == PolygonTokens(p);
    }
  }

  /** Only the exterior ring is written: a polygon's output is that of its
      exterior ring alone, and reading it back gives the exterior ring. */
  lemma InteriorRingsNotWritten(p: Polygon)
    ensures PolygonTokens(p) == PolygonTokens(Exterior(p))
    ensures ParsePolygon(PolygonTokens(p)) == Some((Exterior(p), []))
  {
    PolygonRoundTrip(PolygonTokens(p), Exterior(p));
  }

  /** Points are written verbatim: the ring read back from the output is the
      input's exterior ring, so it is closed exactly when that ring is. */
  lemma PolygonRingClosedIff(p: Polygon)
    ensures ParsePolygon(PolygonTokens(p)).Some?
    ensures var q := ParsePolygon(PolygonTokens(p)).value.0;
      q.points == p.points && (IsClosed(q.points) <==> IsClosed(p.points))
  {
    InteriorRingsNotWritten(p);
  }

  /** Reading the list output back gives the list written, polygon by polygon
      and in order, less interior rings. */
  lemma PolygonListReadBack(ps: seq<Polygon>)
    ensures ParsePolygonList(PolygonListTokens(ps)) == Some(Exteriors(ps))
  {
    var ts := PolygonListTokens(ps);
    assert ts[1..] == PolygonsTokens(ps) + [EndArray];
    ParsePolygonsOfTokens(ps, [EndArray]);
  }

  /** A stream reads as a list of polygons exactly when it is that list's
      output and no polygon of the list has interior rings. */
  lemma PolygonListRoundTrip(ts: seq<Token>, ps: seq<Polygon>)
    ensures ParsePolygonList(ts) == Some(ps) <==>
      ts == PolygonListTokens(ps) && forall k :: 0 <= k < |ps| ==> ps[k].holes == []
  {
    if ts == PolygonListTokens(ps) && forall k :: 0 <= k < |ps| ==> ps[k].holes == [] {
      PolygonListReadBack(ps);
      assert Exteriors(ps) == ps;
    }
    if ParsePolygonList(ts) == Some(ps) {
      ParsePolygonsCanonical(ts[1..]);
      assert ts == [ts[0]] + ts[1..];
    }
  }
}
