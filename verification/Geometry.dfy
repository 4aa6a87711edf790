/** Simple Location Format geometries, their GeoJSON form, centroids and the normalisation of an entity's location:
    src/geocoding/slf/geotypes.py, src/geocoding/slf/jsoncodec.py, src/geocoding/slf/locparser.py,
    src/geocoding/centroid.py and src/geocoding/location.py. Coordinates are reals. */
module Geometry {
  import opened Sequences

  datatype Point = Point(lat: real, lon: real)

  datatype Kind = PointKind | LineKind | PolygonKind | BoxKind

  datatype Geometry =
    | SlfPoint(at: Point)
    | SlfLine(points: seq<Point>)
    | SlfPolygon(points: seq<Point>)
    | SlfBox(bottomRight: Point, topLeft: Point)

  /** What the constructors accept. */
  predicate Valid(g: Geometry) {
    match g
    case SlfLine(ps) => |ps| >= 2
    case SlfPolygon(ps) => |ps| >= 4
    case _ => true
  }

  function KindOf(g: Geometry): Kind {
    match g
    case SlfPoint(_) => PointKind
    case SlfLine(_) => LineKind
    case SlfPolygon(_) => PolygonKind
    case SlfBox(_, _) => BoxKind
  }

  /** `to_polygon`: the corners from the top left one round to it again. */
  function Ring(bottomRight: Point, topLeft: Point): seq<Point> {
    [topLeft, Point(topLeft.lat, bottomRight.lon), bottomRight, Point(bottomRight.lat, topLeft.lon), topLeft]
  }

  function Points(g: Geometry): seq<Point> {
    match g
    case SlfPoint(p) => [p]
    case SlfLine(ps) => ps
    case SlfPolygon(ps) => ps
    case SlfBox(br, tl) => [br, tl]
  }

  // ---- GeoJSON --------------------------------------------------------------------------

  datatype Position = Position(x: real, y: real)

  datatype GeoJson =
    | JsonPoint(at: Position)
    | JsonLineString(positions: seq<Position>)
    | JsonPolygon(rings: seq<seq<Position>>)

  /** Longitude comes first in GeoJSON. */
  function ToPosition(): Point -> Position {
    (p: Point) => Position(p.lon, p.lat)
  }

  function ToPoint(): Position -> Point {
    (p: Position) => Point(p.y, p.x)
  }

  function Encode(g: Geometry): GeoJson {
    match g
    case SlfPoint(p) => JsonPoint(ToPosition()(p))
    case SlfLine(ps) => JsonLineString(Map(ToPosition(), ps))
    case SlfPolygon(ps) => JsonPolygon([Map(ToPosition(), ps)])
    case SlfBox(br, tl) => JsonPolygon([Map(ToPosition(), Ring(br, tl))])
  }

  /** What a Python call comes to: a value or an exception. */
  datatype Attempt<T> = Returned(value: T) | Raised

  function Construct(g: Geometry): Attempt<Option<Geometry>> {
    if Valid(g) then Returned(Some(g)) else Raised
  }

  /** Empty coordinates and other types give None; too few positions raise. */
  function Decode(j: GeoJson, kind: Kind): Attempt<Option<Geometry>> {
    match (kind, j)
    case (PointKind, JsonPoint(p)) => Returned(Some(SlfPoint(ToPoint()(p))))
    case (LineKind, JsonLineString(ps)) =>
      if ps == [] then Returned(None) else Construct(SlfLine(Map(ToPoint(), ps)))
    case (PolygonKind, JsonPolygon(rings)) =>
      if rings == [] then Returned(None) else Construct(SlfPolygon(Map(ToPoint(), rings[0])))
    case (BoxKind, JsonPolygon(rings)) =>
      if rings == [] then Returned(None)
      else if |rings[0]| < 3 then Raised
      else Returned(Some(SlfBox(ToPoint()(rings[0][2]), ToPoint()(rings[0][0]))))
    case _ => Returned(None)
  }

  lemma PointsRoundTrip(ps: seq<Point>)
    ensures Map(ToPoint(), Map(ToPosition(), ps)) == ps
  {
  }

  /** Encoding and decoding to its own type gives a geometry back. */
  lemma CodecRoundTrip(g: Geometry)
    requires Valid(g)
    ensures Decode(Encode(g), KindOf(g)) == Returned(Some(g))
  {
    match g
    case SlfPoint(_) =>
    case SlfLine(ps) => PointsRoundTrip(ps);
    case SlfPolygon(ps) => PointsRoundTrip(ps);
    case SlfBox(br, tl) => PointsRoundTrip(Ring(br, tl));
  }

  /** A box travels as a closed ring of five positions (section 3.1.6 of RFC 7946), which decodes to a polygon of the
      same corners too; a polygon decodes to a box of two of its points; nothing else decodes to another type. */
  lemma DecodeAsOther(g: Geometry, kind: Kind)
    requires Valid(g) && kind != KindOf(g)
    ensures Decode(Encode(g), kind) ==
      match (g, kind)
      case (SlfBox(br, tl), PolygonKind) => Returned(Some(SlfPolygon(Ring(br, tl))))
      case (SlfPolygon(ps), BoxKind) => Returned(Some(SlfBox(ps[2], ps[0])))
      case _ => Returned(None)
    ensures g.SlfBox? ==>
      var ring := Encode(g).rings[0];
      |Encode(g).rings| == 1 && |ring| == 5 && ring[0] == ring[4]
  {
    match g
    case SlfBox(br, tl) => PointsRoundTrip(Ring(br, tl));
    case _ =>
  }

  /** Which GeoJSON cannot be decoded to a type: a list of positions too short for it raises, another GeoJSON type or no
      positions at all give none; a line of one position, a polygon whose outer ring has fewer than four, a box whose
      outer ring has fewer than three. */
  lemma DecodeOutcome(j: GeoJson, kind: Kind)
    ensures Decode(j, kind).Raised? <==>
      match (kind, j)
      case (LineKind, JsonLineString(ps)) => |ps| == 1
      case (PolygonKind, JsonPolygon(rings)) => rings != [] && |rings[0]| < 4
      case (BoxKind, JsonPolygon(rings)) => rings != [] && |rings[0]| < 3
      case _ => false
    ensures Decode(j, kind) == Returned(None) <==>
      match (kind, j)
      case (PointKind, JsonPoint(_)) => false
      case (LineKind, JsonLineString(ps)) => ps == []
      case (PolygonKind, JsonPolygon(rings)) => rings == []
      case (BoxKind, JsonPolygon(rings)) => rings == []
      case _ => true
    ensures Decode(j, kind).Returned? && Decode(j, kind).value.Some? ==>
      KindOf(Decode(j, kind).value.value) == kind && Reads(j, Decode(j, kind).value.value)
  {
  }

  /** The geometry has the positions of the outline, a box the first and the third. */
  ghost predicate Reads(j: GeoJson, g: Geometry) {
    match j
    case JsonPoint(p) => Map(ToPosition(), Points(g)) == [p]
    case JsonLineString(ps) => Map(ToPosition(), Points(g)) == ps
    case JsonPolygon(rings) =>
      rings != [] &&
      if g.SlfBox? then |rings[0]| > 2 && Map(ToPosition(), Points(g)) == [rings[0][2], rings[0][0]]
      else Map(ToPosition(), Points(g)) == rings[0]
  }

  // ---- Centroids ------------------------------------------------------------------------

  function SumX(ps: seq<Position>): real {
    if ps == [] then 0.0 else SumX(ps[..|ps| - 1]) + ps[|ps| - 1].x
  }

  function SumY(ps: seq<Position>): real {
    if ps == [] then 0.0 else SumY(ps[..|ps| - 1]) + ps[|ps| - 1].y
  }

  function Centroid(ps: seq<Position>): Option<Position> {
    if ps == [] then None else Some(Position(SumX(ps) / |ps| as real, SumY(ps) / |ps| as real))
  }

  method Centroid2d(points: seq<Position>) returns (c: Option<Position>)
    ensures c == Centroid(points)
  {
    var numberOfPoints := 0;
    var x, y := 0.0, 0.0;
    for i := 0 to |points|
      invariant x == SumX(points[..i]) && y == SumY(points[..i]) && numberOfPoints == i
    {
      assert points[..i + 1][..i] == points[..i];
      x, y := x + points[i].x, y + points[i].y;
      numberOfPoints := numberOfPoints + 1;
    }
    assert points[..|points|] == points;
    c := if numberOfPoints == 0 then None
         else Some(Position(x / numberOfPoints as real, y / numberOfPoints as real));
  }

  function Shift(c: Position): Position -> Position {
    (p: Position) => Position(p.x - c.x, p.y - c.y)
  }

  lemma Divided(s: real, n: real, q: real)
    requires n > 0.0
    ensures s / n == q <==> s - n * q == 0.0
  {
  }

  lemma OneMore(n: real, c: real)
    ensures (n + 1.0) * c == n * c + c
  {
  }

  lemma SumSnoc(ps: seq<Position>, p: Position)
    ensures SumX(ps + [p]) == SumX(ps) + p.x && SumY(ps + [p]) == SumY(ps) + p.y
  {
  }

  lemma ShiftSnoc(init: seq<Position>, last: Position, c: Position)
    ensures SumX(Map(Shift(c), init + [last])) == SumX(Map(Shift(c), init)) + (last.x - c.x)
    ensures SumY(Map(Shift(c), init + [last])) == SumY(Map(Shift(c), init)) + (last.y - c.y)
  {
    MapConcat(Shift(c), init, [last]);
    assert Map(Shift(c), [last]) == [Shift(c)(last)];
    SumSnoc(Map(Shift(c), init), Shift(c)(last));
  }

  function Times(n: nat, q: real): real {
    if n == 0 then 0.0 else Times(n - 1, q) + q
  }

  lemma {:induction false} TimesIs(n: nat, q: real)
    ensures Times(n, q) == n as real * q
  {
    if n > 0 {
      TimesIs(n - 1, q);
      OneMore((n - 1) as real, q);
      assert n as real == (n - 1) as real + 1.0;
    }
  }

  lemma {:induction false} ShiftedSums(ps: seq<Position>, c: Position)
    ensures SumX(Map(Shift(c), ps)) == SumX(ps) - Times(|ps|, c.x)
    ensures SumY(Map(Shift(c), ps)) == SumY(ps) - Times(|ps|, c.y)
  {
    if ps != [] {
      var init, last := ps[..|ps| - 1], ps[|ps| - 1];
      ShiftedSums(init, c);
      ShiftSnoc(init, last, c);
      assert ps == init + [last];
      SumSnoc(init, last);
    }
  }

  /** The centroid is the one position from which the displacements to the points cancel out. */
  lemma CentroidBalances(ps: seq<Position>, c: Position)
    requires ps != []
    ensures Centroid(ps) == Some(c) <==>
      SumX(Map(Shift(c), ps)) == 0.0 && SumY(Map(Shift(c), ps)) == 0.0
  {
    ShiftedSums(ps, c);
    Mean(SumX(ps), |ps|, c.x);
    Mean(SumY(ps), |ps|, c.y);
  }

  lemma Mean(s: real, n: nat, q: real)
    requires n > 0
    ensures s / n as real == q <==> s - Times(n, q) == 0.0
  {
    TimesIs(n, q);
    Divided(s, n as real, q);
  }

  /** All positions of a GeoJSON geometry. */
  function Coords(j: GeoJson): seq<Position> {
    match j
    case JsonPoint(p) => [p]
    case JsonLineString(ps) => ps
    case JsonPolygon(rings) => Flatten(rings)
  }

  // ---- The location of an entity --------------------------------------------------------

  /** The value of a Simple Location Format attribute: a text, a list of texts, or something else. A text is a point,
      or no `lat, lon` pair. */
  datatype TextValue = OneText(point: Option<Point>) | Texts(points: seq<Option<Point>>) | NoText

  /** A location attribute by its type: GeoJSON (`geo:json`, or `GeoProperty` for linked data), SLF, or no known one. */
  datatype Location =
    | GeoJsonLocation(linkedData: bool, geometry: Option<GeoJson>)
    | SlfLocation(kind: Kind, text: TextValue)
    | UnknownLocation

  function Parsed(ps: seq<Option<Point>>): seq<Point> {
    if ps == [] || ps[0].None? then [] else [ps[0].value] + Parsed(ps[1..])
  }

  /** `from_location_attribute`, and the points read later on: the first ones a constructor needs make for None when
      they cannot be read, later ones raise when they are asked for; a box never asks for more than two. */
  function FromTexts(kind: Kind, ps: seq<Option<Point>>): Attempt<Option<Geometry>> {
    var good := Parsed(ps);
    match kind
    case PointKind => Returned(None)
    case LineKind =>
      if |good| < 2 then Returned(None) else if |good| < |ps| then Raised else Returned(Some(SlfLine(good)))
    case PolygonKind =>
      if |good| < 4 then Returned(None) else if |good| < |ps| then Raised else Returned(Some(SlfPolygon(good)))
    case BoxKind =>
      if |good| < 2 then Returned(None) else Returned(Some(SlfBox(good[0], good[1])))
  }

  function FromLocation(kind: Kind, text: TextValue): (r: Attempt<Option<Geometry>>)
    ensures r.Returned? && r.value.Some? ==> Valid(r.value.value) && KindOf(r.value.value) == kind
  {
    match text
    case OneText(p) => Returned(if kind == PointKind && p.Some? then Some(SlfPoint(p.value)) else None)
    case Texts(ps) => FromTexts(kind, ps)
    case NoText => Returned(None)
  }

  function AsGeoJson(location: Option<Location>): Attempt<Option<GeoJson>> {
    match location
    case Some(GeoJsonLocation(_, g)) => Returned(g)
    case Some(SlfLocation(kind, text)) =>
      (match FromLocation(kind, text)
       case Raised => Raised
       case Returned(g) => Returned(if g.None? then None else Some(Encode(g.value))))
    case _ => Returned(None)
  }

  function CentroidOf(location: Location): Option<Point> {
    var c :=
      match location
      case GeoJsonLocation(_, g) => if g.None? then None else Centroid(Coords(g.value))
      case SlfLocation(kind, text) =>
        (match FromLocation(kind, text)
         case Returned(Some(g)) => Centroid(Map(ToPosition(), Points(g)))
         case _ => None)
      case UnknownLocation => None;
    if c.None? then None else Some(ToPoint()(c.value))
  }

  /** The two attributes normalisation is about. */
  datatype Located = Located(location: Option<Location>, centroid: Option<Point>)

  /** An entity whose location cannot be read keeps it and loses its centroid; one with no point at all keeps the
      centroid it had. */
  function Normalized(e: Located): Attempt<Located> {
    match AsGeoJson(e.location)
    case Raised => Raised
    case Returned(None) => Returned(e.(centroid := None))
    case Returned(Some(j)) =>
      var c := CentroidOf(e.location.value);
      Returned(Located(Some(GeoJsonLocation(false, Some(j))), if c.Some? then c else e.centroid))
  }

  /** An entity dictionary. */
  class NgsiEntity {
    var location: Option<Location>
    var centroid: Option<Point>

    function State(): Located
      reads this
    {
      Located(location, centroid)
    }

    constructor (location: Option<Location>, centroid: Option<Point>)
      ensures State() == Located(location, centroid)
    {
      this.location, this.centroid := location, centroid;
    }
  }

  /** The result says whether the call returned; an exception leaves the entity as it was. */
  method NormalizeLocation(entity: NgsiEntity?) returns (ok: bool)
    modifies entity
    ensures entity == null ==> ok
    ensures entity != null ==> ok == Normalized(old(entity.State())).Returned?
    ensures entity != null ==>
      entity.State() == if ok then Normalized(old(entity.State())).value else old(entity.State())
    ensures entity != null ==> (!ok <==> UnreadableBehind(old(entity.location)))
  {
    if entity == null { return true; }
    NormalizeRaises(entity.State());
    var location := entity.location;
    var geojson := AsGeoJson(location);
    if geojson.Raised? { return false; }
    if geojson.value.Some? {
      entity.location := Some(GeoJsonLocation(false, geojson.value));
      var centroid := CentroidOf(location.value);
      if centroid.Some? {
        entity.centroid := centroid;
      }
    } else {
      entity.centroid := None;
    }
    ok := true;
  }

  // ---- When normalising raises ----------------------------------------------------------

  ghost predicate StartsReadable(ps: seq<Option<Point>>, n: nat) {
    n <= |ps| && forall i :: 0 <= i < n ==> ps[i].Some?
  }

  lemma {:induction false} ParsedReaches(ps: seq<Option<Point>>, n: nat)
    ensures n <= |Parsed(ps)| <==> StartsReadable(ps, n)
  {
    if n > 0 && ps != [] && ps[0].Some? {
      ParsedReaches(ps[1..], n - 1);
      assert StartsReadable(ps, n) ==> StartsReadable(ps[1..], n - 1);
      assert StartsReadable(ps[1..], n - 1) ==> forall i :: 1 <= i < n ==> ps[i] == ps[1..][i - 1];
    }
  }

  /** The texts a constructor reads at once. */
  function ReadAtOnce(kind: Kind): nat {
    match kind
    case PointKind => 1
    case LineKind => 2
    case PolygonKind => 4
    case BoxKind => 2
  }

  lemma {:induction false} ParsedAre(ps: seq<Option<Point>>)
    ensures |Parsed(ps)| <= |ps| && forall i :: 0 <= i < |Parsed(ps)| ==> ps[i] == Some(Parsed(ps)[i])
  {
    if ps != [] && ps[0].Some? { ParsedAre(ps[1..]); }
  }

  /** A geometry read from a list of texts has the points of the texts in order: all of them for a line or polygon, the
      first two for a box. There is none exactly when one of the texts read at once is missing or no point. */
  lemma TextsAreKept(kind: Kind, ps: seq<Option<Point>>)
    ensures FromTexts(kind, ps) == Returned(None) <==> kind == PointKind || !StartsReadable(ps, ReadAtOnce(kind))
    ensures FromTexts(kind, ps).Returned? && FromTexts(kind, ps).value.Some? ==>
      var g := FromTexts(kind, ps).value.value;
      && KindOf(g) == kind && |Points(g)| == (if kind == BoxKind then 2 else |ps|)
      && forall i :: 0 <= i < |Points(g)| ==> ps[i] == Some(Points(g)[i])
  {
    ParsedAre(ps);
    ParsedReaches(ps, ReadAtOnce(kind));
  }

  /** A list for a line or polygon whose constructor succeeds and which has an unreadable text further on. */
  ghost predicate UnreadableBehind(location: Option<Location>) {
    match location
    case Some(SlfLocation(kind, Texts(ps))) =>
      && (kind == LineKind || kind == PolygonKind)
      && StartsReadable(ps, ReadAtOnce(kind))
      && exists i :: ReadAtOnce(kind) <= i < |ps| && ps[i].None?
    case _ => false
  }

  /** Normalising raises exactly on such a location. */
  lemma NormalizeRaises(e: Located)
    ensures Normalized(e).Raised? <==> UnreadableBehind(e.location)
  {
    match e.location
    case Some(SlfLocation(kind, Texts(ps))) =>
      ParsedReaches(ps, ReadAtOnce(kind));
      ParsedReaches(ps, |ps|);
    case _ =>
  }

  /** For instance on a line of two points and a text that is none. */
  lemma ThirdTextUnreadable(p: Point, q: Point, centroid: Option<Point>)
    ensures Normalized(Located(Some(SlfLocation(LineKind, Texts([Some(p), Some(q), None]))), centroid)).Raised?
  {
    var ps := [Some(p), Some(q), None];
    assert ps[2].None?;
    NormalizeRaises(Located(Some(SlfLocation(LineKind, Texts(ps))), centroid));
  }

  // ---- What normalising leaves ------------------------------------------------------------

  /** A single text is read for a point only; a list of texts for anything else. */
  lemma LocationRead(kind: Kind, text: TextValue)
    ensures FromLocation(kind, text).Raised? ==> text.Texts?
    ensures !text.Texts? ==>
      FromLocation(kind, text).value ==
        match text
        case OneText(Some(p)) => if kind == PointKind then Some(SlfPoint(p)) else None
        case _ => None
  {
  }

  /** A GeoJSON location stays; the centroid is that of its positions, stays where there are none, and goes where there
      is no geometry, as it does for a location of no known type and for an entity without one. */
  lemma NormalizeGeoJson(linkedData: bool, geometry: Option<GeoJson>, centroid: Option<Point>)
    ensures var once := Normalized(Located(Some(GeoJsonLocation(linkedData, geometry)), centroid));
      once == Returned(
        match geometry
        case None => Located(Some(GeoJsonLocation(linkedData, None)), None)
        case Some(j) => Located(Some(GeoJsonLocation(false, Some(j))),
                                if Coords(j) == [] then centroid
                                else Some(Point(SumY(Coords(j)) / |Coords(j)| as real,
                                                SumX(Coords(j)) / |Coords(j)| as real))))
    ensures Normalized(Located(Some(UnknownLocation), centroid)) == Returned(Located(Some(UnknownLocation), None))
    ensures Normalized(Located(None, centroid)) == Returned(Located(None, None))
  {
  }

  // ---- Normalising again ----------------------------------------------------------------

  /** Whatever the location, once the second call returned a third changes nothing. */
  lemma ThriceIsTwice(e: Located)
    requires Normalized(e).Returned?
    ensures var once := Normalized(e).value;
      Normalized(once).Returned? && Normalized(Normalized(once).value) == Normalized(once)
  {
  }

  lemma SlfNormalized(kind: Kind, text: TextValue, centroid: Option<Point>, g: Geometry)
    requires FromLocation(kind, text) == Returned(Some(g))
    ensures var c := Centroid(Map(ToPosition(), Points(g)));
      && c.Some?
      && Normalized(Located(Some(SlfLocation(kind, text)), centroid)) ==
           Returned(Located(Some(GeoJsonLocation(false, Some(Encode(g)))), Some(ToPoint()(c.value))))
      && Decode(Encode(g), kind) == Returned(Some(g))
  {
    CodecRoundTrip(g);
    assert Map(ToPosition(), Points(g)) != [];
  }

  /** For points, lines and polygons normalising twice is normalising once. */
  lemma NormalizeTwice(kind: Kind, text: TextValue, centroid: Option<Point>, g: Geometry)
    requires FromLocation(kind, text) == Returned(Some(g)) && kind != BoxKind
    ensures var once := Normalized(Located(Some(SlfLocation(kind, text)), centroid));
      once.Returned? && Normalized(once.value) == once
  {
    SlfNormalized(kind, text, centroid, g);
    var ps := Map(ToPosition(), Points(g));
    assert [ps][0] + Flatten([ps][1..]) == ps;
    assert Coords(Encode(g)) == ps;
  }

  /** For boxes the location is stable, but the centroid moves from that of two corners to that of the ring; it
      stays exactly when the corners are one point. */
  lemma NormalizeBoxTwice(text: TextValue, centroid: Option<Point>, br: Point, tl: Point)
    requires FromLocation(BoxKind, text) == Returned(Some(SlfBox(br, tl)))
    ensures var once := Normalized(Located(Some(SlfLocation(BoxKind, text)), centroid));
      once.Returned? && Normalized(once.value).Returned?
      && Normalized(once.value).value.location == once.value.location
      && once.value.centroid == Some(Point((br.lat + tl.lat) / 2.0, (br.lon + tl.lon) / 2.0))
      && Normalized(once.value).value.centroid
           == Some(Point((3.0 * tl.lat + 2.0 * br.lat) / 5.0, (3.0 * tl.lon + 2.0 * br.lon) / 5.0))
      && (Normalized(once.value) == once <==> br == tl)
  {
    SlfNormalized(BoxKind, text, centroid, SlfBox(br, tl));
    CornersCentroid(br, tl);
    RingCentroid(br, tl);
    var ring := Map(ToPosition(), Ring(br, tl));
    assert [ring][0] + Flatten([ring][1..]) == ring;
    assert Coords(Encode(SlfBox(br, tl))) == ring;
  }

  lemma CornersCentroid(br: Point, tl: Point)
    ensures Centroid(Map(ToPosition(), [br, tl])) == Some(Position((br.lon + tl.lon) / 2.0, (br.lat + tl.lat) / 2.0))
  {
    SumTwo(ToPosition()(br), ToPosition()(tl));
    assert Map(ToPosition(), [br, tl]) == [ToPosition()(br), ToPosition()(tl)];
  }

  lemma RingCentroid(br: Point, tl: Point)
    ensures Centroid(Map(ToPosition(), Ring(br, tl)))
         == Some(Position((3.0 * tl.lon + 2.0 * br.lon) / 5.0, (3.0 * tl.lat + 2.0 * br.lat) / 5.0))
  {
    SumFive(Map(ToPosition(), Ring(br, tl)));
  }

  lemma SumTwo(p: Position, q: Position)
    ensures SumX([p, q]) == p.x + q.x && SumY([p, q]) == p.y + q.y
  {
    SumSnoc([], p);
    SumSnoc([p], q);
    assert [] + [p] == [p] && [p] + [q] == [p, q];
  }

  lemma SumFive(ps: seq<Position>)
    requires |ps| == 5
    ensures SumX(ps) == ps[0].x + ps[1].x + ps[2].x + ps[3].x + ps[4].x
    ensures SumY(ps) == ps[0].y + ps[1].y + ps[2].y + ps[3].y + ps[4].y
  {
    SumTwo(ps[0], ps[1]);
    SumSnoc([ps[0], ps[1]], ps[2]);
    SumSnoc([ps[0], ps[1]] + [ps[2]], ps[3]);
    SumSnoc([ps[0], ps[1]] + [ps[2]] + [ps[3]], ps[4]);
    assert ps == [ps[0], ps[1]] + [ps[2]] + [ps[3]] + [ps[4]];
  }
}
