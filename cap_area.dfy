/**
 * The CAP `area` of a feature: its description and one polygon string per GeoJSON polygon,
 * each a whitespace-delimited list of "lat,lon" pairs, as the `polygon` element of
 * section 3.2.4 of OASIS CAP v1.2 requires (GeoJSON itself stores "lon,lat").
 */
module CapArea {
  import opened Results
  import opened CapTypes

  /** `point[k]` stringified: JavaScript prints a missing coordinate as "undefined". */
  function Coordinate(p: Point, k: nat): string {
    if k < |p| then p[k] else "undefined"
  }

  /** One point of the polygon string: latitude, comma, longitude, then one space. */
  function PointText(p: Point): string {
    Coordinate(p, 1) + "," + Coordinate(p, 0) + " "
  }

  /** The polygon string of a ring: its points' texts in ring order. */
  function RingText(ring: Ring): string
    decreases |ring|
  {
    if ring == [] then "" else RingText(ring[..|ring| - 1]) + PointText(ring[|ring| - 1])
  }

  /** A Polygon is taken as a one-polygon list, a MultiPolygon as it is; nothing else is accepted. */
  function FeaturePolygons(g: Geometry): Result<seq<seq<Ring>>, CapError> {
    match g
    case Polygon(rings) => Ok([rings])
    case MultiPolygon(polygons) => Ok(polygons)
    case Other(name) => Err(UnsupportedGeometry(name))
  }

  /** The polygon strings, or the failure met at the first polygon that has not exactly one ring. */
  function PolygonTexts(polys: seq<seq<Ring>>): Result<seq<string>, CapError>
    decreases |polys|
  {
    if polys == [] then Ok([])
    else
      var k := |polys| - 1;
      match PolygonTexts(polys[..k])
      case Err(e) => Err(e)
      case Ok(texts) =>
        if |polys[k]| > 1 then Err(InteriorRing(k))
        else if |polys[k]| == 0 then Err(MissingRing(k))
        else Ok(texts + [RingText(polys[k][0])])
  }

  /** "level_name, parent_name". */
  function AreaDesc(f: Feature): string {
    f.levelName + ", " + f.parentName
  }

  /** The `area` element of a feature, or why there is none. */
  function AreaOf(f: Feature): Result<Area, CapError> {
    match FeaturePolygons(f.geometry)
    case Err(e) => Err(e)
    case Ok(polys) =>
      match PolygonTexts(polys)
      case Err(e) => Err(e)
      case Ok(texts) => Ok(Area(AreaDesc(f), texts))
  }

  /** Every polygon of the geometry has exactly one ring. */
  predicate SimplePolygons(polys: seq<seq<Ring>>) {
    forall j :: 0 <= j < |polys| ==> |polys[j]| == 1
  }

  /** Builds the `area` element the way the transformer does: polygon by polygon, point by point,
      stopping at the first polygon with interior rings or with no ring at all. */
  method CreateArea(f: Feature) returns (r: Result<Area, CapError>)
    ensures r == AreaOf(f)
  {
    var areaDesc := f.levelName + ", " + f.parentName;
    var polygons: seq<string> := [];
    var featurePolygons: seq<seq<Ring>>;
    match f.geometry {
      case Polygon(rings) => featurePolygons := [rings];
      case MultiPolygon(polys) => featurePolygons := polys;
      case Other(name) => return Err(UnsupportedGeometry(name));
    }
    var i := 0;
    while i < |featurePolygons|
      invariant 0 <= i <= |featurePolygons|
      invariant PolygonTexts(featurePolygons[..i]) == Ok(polygons)
    {
      assert featurePolygons[..i + 1][..i] == featurePolygons[..i];
      var rings := featurePolygons[i];
      if |rings| > 1 {
        PolygonTextsPrefixErr(featurePolygons, i + 1);
        return Err(InteriorRing(i));
      }
      if |rings| == 0 {
        PolygonTextsPrefixErr(featurePolygons, i + 1);
        return Err(MissingRing(i));
      }
      var polygon := "";
      var j := 0;
      while j < |rings[0]|
        invariant 0 <= j <= |rings[0]|
        invariant polygon == RingText(rings[0][..j])
      {
        assert rings[0][..j + 1][..j] == rings[0][..j];
        polygon := polygon + PointText(rings[0][j]);
        j := j + 1;
      }
      assert rings[0][..j] == rings[0];
      polygons := polygons + [polygon];
      i := i + 1;
    }
    assert featurePolygons[..i] == featurePolygons;
    return Ok(Area(areaDesc, polygons));
  }

  // ----- Lemmas -----

  /** Once a prefix of the polygons fails, the whole list fails the same way. */
  lemma {:induction false} PolygonTextsPrefixErr(polys: seq<seq<Ring>>, n: nat)
    requires n <= |polys|
    requires PolygonTexts(polys[..n]).Err?
    ensures PolygonTexts(polys) == PolygonTexts(polys[..n])
    decreases |polys| - n
  {
    if n == |polys| {
      assert polys[..n] == polys;
    } else {
      var init := polys[..|polys| - 1];
      assert init[..n] == polys[..n];
      PolygonTextsPrefixErr(init, n);
    }
  }

  /** The polygon strings exist exactly when every polygon is simple, and then there is one per
      polygon, in the same order, each the text of that polygon's only ring. */
  lemma {:induction false} PolygonTextsOk(polys: seq<seq<Ring>>)
    ensures PolygonTexts(polys).Ok? <==> SimplePolygons(polys)
    ensures PolygonTexts(polys).Ok? ==>
      && |PolygonTexts(polys).value| == |polys|
      && forall j :: 0 <= j < |polys| ==> PolygonTexts(polys).value[j] == RingText(polys[j][0])
    decreases |polys|
  {
    if polys != [] {
      var k := |polys| - 1;
      var init := polys[..k];
      PolygonTextsOk(init);
      assert forall j :: 0 <= j < k ==> init[j] == polys[j];
      if SimplePolygons(polys) {
        assert SimplePolygons(init);
      }
    }
  }

  /** A failure names the first polygon that does not have exactly one ring, and says which way. */
  lemma {:induction false} PolygonTextsErr(polys: seq<seq<Ring>>)
    requires PolygonTexts(polys).Err?
    ensures PolygonTexts(polys).error.InteriorRing? || PolygonTexts(polys).error.MissingRing?
    ensures
      var k := PolygonTexts(polys).error.polygonIndex;
      && k < |polys|
      && (forall j :: 0 <= j < k ==> |polys[j]| == 1)
      && (PolygonTexts(polys).error.InteriorRing? <==> |polys[k]| > 1)
      && (PolygonTexts(polys).error.MissingRing? <==> |polys[k]| == 0)
    decreases |polys|
  {
    var k := |polys| - 1;
    var init := polys[..k];
    if PolygonTexts(init).Err? {
      PolygonTextsErr(init);
    } else {
      PolygonTextsOk(init);
    }
  }

  /** Ring texts concatenate: the text of two joined rings is the two texts joined. */
  lemma {:induction false} RingTextAppend(a: Ring, b: Ring)
    ensures RingText(a + b) == RingText(a) + RingText(b)
    decreases |b|
  {
    if b == [] {
      assert a + b == a;
    } else {
      var k := |b| - 1;
      var ab := a + b;
      assert ab[..|ab| - 1] == a + b[..k];
      assert ab[|ab| - 1] == b[k];
      calc {
        RingText(ab);
        RingText(a + b[..k]) + PointText(b[k]);
        { RingTextAppend(a, b[..k]); }
        RingText(a) + RingText(b[..k]) + PointText(b[k]);
        RingText(a) + RingText(b);
      }
    }
  }

  /** Each point [a, b] is written "b,a " ahead of the rest of the ring: coordinates swapped, order kept. */
  lemma RingTextCons(p: Point, ring: Ring)
    ensures |p| == 2 ==> RingText([p] + ring) == p[1] + "," + p[0] + " " + RingText(ring)
    ensures RingText([p] + ring) == PointText(p) + RingText(ring)
  {
    RingTextAppend([p], ring);
    assert [p][..0] == [];
  }

  /** The area of a supported geometry with simple polygons carries one string per polygon, in input
      order; an unsupported type or any polygon that is not simple yields no area at all. */
  lemma AreaOfOutcome(f: Feature)
    ensures f.geometry.Other? ==> AreaOf(f) == Err(UnsupportedGeometry(f.geometry.typeName))
    ensures f.geometry.Polygon? ==>
      (AreaOf(f).Ok? <==> |f.geometry.rings| == 1)
    ensures f.geometry.MultiPolygon? ==>
      (AreaOf(f).Ok? <==> SimplePolygons(f.geometry.polygons))
    ensures AreaOf(f).Ok? ==> AreaOf(f).value.areaDesc == f.levelName + ", " + f.parentName
    ensures AreaOf(f).Ok? && f.geometry.Polygon? ==>
      AreaOf(f).value.polygon == [RingText(f.geometry.rings[0])]
    ensures AreaOf(f).Ok? && f.geometry.MultiPolygon? ==>
      && |AreaOf(f).value.polygon| == |f.geometry.polygons|
      && forall j :: 0 <= j < |f.geometry.polygons| ==>
           AreaOf(f).value.polygon[j] == RingText(f.geometry.polygons[j][0])
  {
    match f.geometry
    case Polygon(rings) =>
      PolygonTextsOk([rings]);
      assert SimplePolygons([rings]) <==> |rings| == 1;
    case MultiPolygon(polys) =>
      PolygonTextsOk(polys);
    case Other(_) =>
  }

  /** A failure of a supported geometry is the first polygon's with interior rings or with none. */
  lemma AreaOfFailure(f: Feature)
    requires AreaOf(f).Err? && !f.geometry.Other?
    ensures AreaOf(f).error.InteriorRing? || AreaOf(f).error.MissingRing?
    ensures
      var polys := FeaturePolygons(f.geometry).value;
      var k := AreaOf(f).error.polygonIndex;
      && k < |polys|
      && (forall j :: 0 <= j < k ==> |polys[j]| == 1)
      && (AreaOf(f).error.InteriorRing? <==> |polys[k]| > 1)
      && (AreaOf(f).error.MissingRing? <==> |polys[k]| == 0)
  {
    PolygonTextsErr(FeaturePolygons(f.geometry).value);
  }
}
