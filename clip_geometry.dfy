/**
 * The clip-rectangle geometry: the bounds of a `rect`, its corners, how far a point lies inside
 * each edge of a rectangle, those distances as fractions of the rectangle's size, the corner
 * points of a `clipPath`, and the fraction of the image to crop from each edge.
 *
 * A rectangle's bounds are {x0, x1, y0, y1}; x1 and y1 are x0 + width and y0 + height and may lie
 * on either side of x0 and y0. Distances and crop fractions are ordered {top, bottom, left, right}.
 */
module ClipGeometry {
  import opened Wrappers
  import opened JavaLang
  import opened Transforms
  import opened Dom
  import opened DocumentSpace

  datatype Bounds = Bounds(x0: real, x1: real, y0: real, y1: real)

  function Abs(v: real): real {
    if v < 0.0 then -v else v
  }

  function Min(a: real, b: real): real {
    if a <= b then a else b
  }

  function Max(a: real, b: real): real {
    if a >= b then a else b
  }

  /** A rectangle with a non-zero width and height, which the fractions divide by. */
  predicate NonDegenerate(b: Bounds) {
    b.x0 != b.x1 && b.y0 != b.y1
  }

  // ---------------------------------------------------------------------------------------------
  // getRectBounds, rectBoundsToPointList

  /**
   * getRectBounds: x, y, width and height are parsed in that order; a missing or malformed one
   * raises NumberFormatException (a missing attribute reads as "").
   */
  function GetRectBounds(attrs: map<string, string>): Checked<Bounds> {
    var x :- ParseDouble(GetAttribute(attrs, "x"));
    var y :- ParseDouble(GetAttribute(attrs, "y"));
    var w :- ParseDouble(GetAttribute(attrs, "width"));
    var h :- ParseDouble(GetAttribute(attrs, "height"));
    Ok(Bounds(x, x + w, y, y + h))
  }

  /** rectBoundsToPointList: the corners (x0,y0), (x0,y1), (x1,y0), (x1,y1). */
  function RectBoundsToPointList(b: Bounds): seq<Point> {
    [Point(b.x0, b.y0), Point(b.x0, b.y1), Point(b.x1, b.y0), Point(b.x1, b.y1)]
  }

  // ---------------------------------------------------------------------------------------------
  // distanceFromRect, isPointInRect, scaleToRectFraction

  /**
   * distanceFromRect: how far the point lies inside the top, bottom, left and right edge; a
   * distance is negative exactly when the point lies beyond that edge, and the two distances to
   * opposite edges add up to the rectangle's extent.
   */
  function DistanceFromRect(p: Point, b: Bounds): (r: seq<real>)
    ensures |r| == 4
    ensures r[0] + r[1] == Abs(b.y1 - b.y0) && r[2] + r[3] == Abs(b.x1 - b.x0)
    ensures r[0] < 0.0 <==> p.y < Min(b.y0, b.y1)
    ensures r[1] < 0.0 <==> p.y > Max(b.y0, b.y1)
    ensures r[2] < 0.0 <==> p.x < Min(b.x0, b.x1)
    ensures r[3] < 0.0 <==> p.x > Max(b.x0, b.x1)
  {
    var top := Min(b.y0, b.y1);
    var bot := Max(b.y0, b.y1);
    var rit := Max(b.x0, b.x1);
    var lef := Min(b.x0, b.x1);
    [p.y - top, bot - p.y, p.x - lef, rit - p.x]
  }

  /** isPointInRect: strictly between x0 and x1 and strictly between y0 and y1, edges excluded. */
  function IsPointInRect(p: Point, b: Bounds): (r: bool)
    ensures r <==> Min(b.x0, b.x1) < p.x < Max(b.x0, b.x1) && Min(b.y0, b.y1) < p.y < Max(b.y0, b.y1)
  {
    ((p.x < b.x0 && p.x > b.x1) || (p.x < b.x1 && p.x > b.x0)) &&
    ((p.y < b.y0 && p.y > b.y1) || (p.y < b.y1 && p.y > b.y0))
  }

  /** The distances divided by the rectangle's height (top, bottom) and width (left, right). */
  function ScaledDistances(d: seq<real>, b: Bounds): (r: seq<real>)
    requires |d| == 4 && NonDegenerate(b)
  {
    [d[0] / Abs(b.y0 - b.y1), d[1] / Abs(b.y0 - b.y1), d[2] / Abs(b.x0 - b.x1), d[3] / Abs(b.x0 - b.x1)]
  }

  /** scaleToRectFraction, which overwrites the distances with their fractions. */
  method ScaleToRectFraction(d: array<real>, b: Bounds)
    requires d.Length == 4 && NonDegenerate(b)
    modifies d
    ensures d[..] == ScaledDistances(old(d[..]), b)
  {
    d[0] := d[0] / Abs(b.y0 - b.y1);
    d[1] := d[1] / Abs(b.y0 - b.y1);
    d[2] := d[2] / Abs(b.x0 - b.x1);
    d[3] := d[3] / Abs(b.x0 - b.x1);
  }

  /** The point's scaled distance from edge j, as getCropFraction computes it. */
  function Fraction(p: Point, b: Bounds, j: nat): real
    requires j < 4 && NonDegenerate(b)
  {
    ScaledDistances(DistanceFromRect(p, b), b)[j]
  }

  // ---------------------------------------------------------------------------------------------
  // getClipPoints

  /**
   * The corners of one `rect` child, each pushed through the child's own `transform` (the loop
   * stops at the first point it cannot move, and the exception leaves getClipPoints).
   */
  function RectPoints(trig: Trig, attrs: map<string, string>): Checked<seq<Point>> {
    var b :- GetRectBounds(attrs);
    var corners := RectBoundsToPointList(b);
    var t := GetAttribute(attrs, "transform");
    if t == "" then Ok(corners)
    else
      var moved := MoveAll(trig, corners, t);
      if moved.1.Some? then Err(moved.1.value) else Ok(moved.0)
  }

  /**
   * The list getClipPoints gathers: the corner points of every element child, in order; text
   * children are passed over and the first element that is not a `rect` raises.
   */
  function ClipShapes(trig: Trig, children: seq<Node>): (r: Checked<seq<seq<Point>>>)
    ensures r.Ok? ==> forall k :: 0 <= k < |r.value| ==> |r.value[k]| == 4
    decreases |children|
  {
    if children == [] then Ok([])
    else
      match children[0]
      case Text(_) => ClipShapes(trig, children[1..])
      case Element(name, attrs, _) =>
        if name != "rect" then Err(UnsupportedClipShape(name))
        else
          var p :- RectPoints(trig, attrs);
          var rest :- ClipShapes(trig, children[1..]);
          Ok([p] + rest)
  }

  function Zeros(n: nat): (r: seq<Point>)
    ensures |r| == n && forall k :: 0 <= k < n ==> r[k] == Point(0.0, 0.0)
  {
    if n == 0 then [] else Zeros(n - 1) + [Point(0.0, 0.0)]
  }

  /**
   * The array getClipPoints returns: room for every gathered point, zero-filled, with each list
   * copied to offset 0 in turn, so that only the last list survives, at the front.
   */
  function CopiedAtZero(shapes: seq<seq<Point>>): (r: seq<Point>)
    requires forall k :: 0 <= k < |shapes| ==> |shapes[k]| == 4
    ensures |r| == 4 * |shapes|
    ensures shapes != [] ==> r[..4] == shapes[|shapes| - 1]
    ensures forall k :: 4 <= k < |r| ==> r[k] == Point(0.0, 0.0)
  {
    if shapes == [] then [] else shapes[|shapes| - 1] + Zeros(4 * (|shapes| - 1))
  }

  function ClipPoints(trig: Trig, clip: Node): Checked<seq<Point>>
    requires clip.Element?
  {
    var shapes :- ClipShapes(trig, clip.children);
    Ok(CopiedAtZero(shapes))
  }

  function Prepend(done: seq<seq<Point>>, rest: Checked<seq<seq<Point>>>): Checked<seq<seq<Point>>> {
    match rest
    case Ok(more) => Ok(done + more)
    case Err(e) => Err(e)
  }

  /** System.arraycopy(src, 0, dest, destPos, src.length). */
  method ArrayCopy(src: seq<Point>, dest: array<Point>, destPos: nat)
    requires destPos + |src| <= dest.Length
    modifies dest
    ensures dest[..] == old(dest[..destPos]) + src + old(dest[destPos + |src|..])
  {
    for j := 0 to |src|
      invariant dest[..] == old(dest[..destPos]) + src[..j] + old(dest[destPos + j..])
    {
      dest[destPos + j] := src[j];
      assert src[..j + 1] == src[..j] + [src[j]];
    }
  }

  /** The rect branch of getClipPoints: the corners, moved by the child's own transform. */
  method ReadRect(trig: Trig, attrs: map<string, string>) returns (r: Checked<seq<Point>>)
    ensures r == RectPoints(trig, attrs)
  {
    var baseTransform := GetAttribute(attrs, "transform");
    var b := GetRectBounds(attrs);
    if b.Err? {
      return Err(b.error);
    }
    var corners := RectBoundsToPointList(b.value);
    var p := new Point[4](k requires 0 <= k < 4 => corners[k]);
    assert p[..] == corners;
    if baseTransform != "" {
      var e := MoveLevel(trig, p, baseTransform);
      if e.Some? {
        return Err(e.value);
      }
    }
    return Ok(p[..]);
  }

  lemma ShapesStep(trig: Trig, children: seq<Node>, i: nat, done: seq<seq<Point>>)
    requires i < |children|
    ensures children[i].Text? ==>
      Prepend(done, ClipShapes(trig, children[i..])) == Prepend(done, ClipShapes(trig, children[i + 1..]))
    ensures children[i].Element? && children[i].name == "rect" && RectPoints(trig, children[i].attrs).Ok? ==>
      Prepend(done, ClipShapes(trig, children[i..])) ==
      Prepend(done + [RectPoints(trig, children[i].attrs).value], ClipShapes(trig, children[i + 1..]))
  {
    assert children[i..][0] == children[i] && children[i..][1..] == children[i + 1..];
    if children[i].Element? && RectPoints(trig, children[i].attrs).Ok? {
      var p := RectPoints(trig, children[i].attrs).value;
      match ClipShapes(trig, children[i + 1..])
      case Ok(more) =>
        assert done + ([p] + more) == (done + [p]) + more;
      case Err(_) =>
    }
  }

  /** The first loop of getClipPoints, which gathers the corner lists into an ArrayList. */
  method GatherShapes(trig: Trig, children: seq<Node>) returns (r: Checked<seq<seq<Point>>>)
    ensures r == ClipShapes(trig, children)
  {
    var pA: seq<seq<Point>> := [];
    var i := 0;
    assert children[0..] == children;
    PrependNothing(ClipShapes(trig, children));
    while i < |children|
      invariant 0 <= i <= |children|
      invariant forall k :: 0 <= k < |pA| ==> |pA[k]| == 4
      invariant ClipShapes(trig, children) == Prepend(pA, ClipShapes(trig, children[i..]))
    {
      var child := children[i];
      ShapesStep(trig, children, i, pA);
      if child.Element? {
        if child.name != "rect" {
          assert children[i..][0] == child;
          return Err(UnsupportedClipShape(child.name));
        }
        var p := ReadRect(trig, child.attrs);
        if p.Err? {
          assert children[i..][0] == child;
          return Err(p.error);
        }
        pA := pA + [p.value];
      }
      i := i + 1;
    }
    assert children[i..] == [];
    assert pA + [] == pA;
    return Ok(pA);
  }

  lemma PrependNothing(r: Checked<seq<seq<Point>>>)
    ensures Prepend([], r) == r
  {
    if r.Ok? {
      assert [] + r.value == r.value;
    }
  }

  /**
   * The second half of getClipPoints: a zero-filled array with room for every point, into which
   * each list is copied at offset 0.
   */
  method CopyAtZero(pA: seq<seq<Point>>) returns (r: seq<Point>)
    requires forall k :: 0 <= k < |pA| ==> |pA[k]| == 4
    ensures r == CopiedAtZero(pA)
  {
    var n := 0;
    for k := 0 to |pA|
      invariant n == 4 * k
    {
      n := n + |pA[k]|;
    }
    var points := new Point[n](_ => Point(0.0, 0.0));
    assert points[..] == Zeros(n);
    for k := 0 to |pA|
      invariant k == 0 ==> points[..] == Zeros(n)
      invariant k > 0 ==> points[..] == pA[k - 1] + Zeros(n - 4)
    {
      ArrayCopy(pA[k], points, 0);
      assert points[..] == pA[k] + Zeros(n - 4);
    }
    return points[..];
  }

  /** getClipPoints: the corner lists of the clip's children, copied as described above. */
  method GetClipPoints(trig: Trig, clip: Node) returns (r: Checked<seq<Point>>)
    requires clip.Element?
    ensures r == ClipPoints(trig, clip)
  {
    var pA := GatherShapes(trig, clip.children);
    if pA.Err? {
      return Err(pA.error);
    }
    var points := CopyAtZero(pA.value);
    return Ok(points);
  }

  // ---------------------------------------------------------------------------------------------
  // getCropFraction

  /** The running minimum of getCropFraction for edge j, seeded with 1. */
  function MinFraction(pts: seq<Point>, b: Bounds, j: nat): real
    requires j < 4 && NonDegenerate(b)
    decreases |pts|
  {
    if pts == [] then 1.0 else Min(MinFraction(pts[..|pts| - 1], b, j), Fraction(pts[|pts| - 1], b, j))
  }

  /**
   * The running minimum is at most 1, at most every point's fraction, and either 1 or one of
   * them: min(1, the least fraction over the points).
   */
  lemma {:induction false} MinFractionIsMinimum(pts: seq<Point>, b: Bounds, j: nat)
    requires j < 4 && NonDegenerate(b)
    ensures MinFraction(pts, b, j) <= 1.0
    ensures forall k :: 0 <= k < |pts| ==> MinFraction(pts, b, j) <= Fraction(pts[k], b, j)
    ensures MinFraction(pts, b, j) == 1.0 || exists k :: 0 <= k < |pts| && MinFraction(pts, b, j) == Fraction(pts[k], b, j)
    decreases |pts|
  {
    if pts != [] {
      var init := pts[..|pts| - 1];
      MinFractionIsMinimum(init, b, j);
      assert forall k :: 0 <= k < |init| ==> init[k] == pts[k];
    }
  }

  /** The fractions getCropFraction returns for these clip points and image bounds. */
  function CropOf(pts: seq<Point>, b: Bounds): (r: seq<real>)
    requires pts != [] ==> NonDegenerate(b)
    ensures |r| == 4
  {
    if pts == [] then [0.0, 0.0, 0.0, 0.0]
    else [MinFraction(pts, b, 0), MinFraction(pts, b, 1), MinFraction(pts, b, 2), MinFraction(pts, b, 3)]
  }

  /** When getCropFraction can divide by the image's size: whenever some clip point exists. */
  predicate CropDefined(trig: Trig, img: map<string, string>, clip: Node)
    requires clip.Element?
  {
    GetRectBounds(img).Ok? && ClipPoints(trig, clip).Ok? && ClipPoints(trig, clip).value != [] ==>
      NonDegenerate(GetRectBounds(img).value)
  }

  /** getCropFraction: the image's bounds, then the clip's points, then their fractions. */
  function CropFraction(trig: Trig, img: map<string, string>, clip: Node): Checked<seq<real>>
    requires clip.Element? && CropDefined(trig, img, clip)
  {
    var b :- GetRectBounds(img);
    var pts :- ClipPoints(trig, clip);
    Ok(CropOf(pts, b))
  }

  lemma MinFractionStep(pts: seq<Point>, b: Bounds, j: nat, i: nat)
    requires j < 4 && NonDegenerate(b) && i < |pts|
    ensures MinFraction(pts[..i + 1], b, j) == Min(MinFraction(pts[..i], b, j), Fraction(pts[i], b, j))
  {
    assert pts[..i + 1][..i] == pts[..i];
  }

  /** The inner loop of getCropFraction: cf[j] = Math.min(cf[j], pf[j]) for each edge. */
  method TakeMinima(cf: array<real>, pf: array<real>)
    requires cf.Length == 4 && pf.Length == 4 && cf != pf
    modifies cf
    ensures forall j :: 0 <= j < 4 ==> cf[j] == Min(old(cf[j]), pf[j])
  {
    for j := 0 to 4
      invariant forall k :: 0 <= k < j ==> cf[k] == Min(old(cf[k]), pf[k])
      invariant forall k :: j <= k < 4 ==> cf[k] == old(cf[k])
    {
      cf[j] := Min(cf[j], pf[j]);
    }
  }

  /** The loop over the clip points: each point's fractions lower the running minima. */
  method LowerToFractions(cf: array<real>, pts: seq<Point>, b: Bounds)
    requires cf.Length == 4 && (pts != [] ==> NonDegenerate(b))
    requires pts != [] ==> forall j :: 0 <= j < 4 ==> cf[j] == 1.0
    modifies cf
    ensures pts == [] ==> cf[..] == old(cf[..])
    ensures pts != [] ==> forall j :: 0 <= j < 4 ==> cf[j] == MinFraction(pts, b, j)
  {
    for i := 0 to |pts|
      invariant pts == [] ==> cf[..] == old(cf[..])
      invariant pts != [] ==> forall j :: 0 <= j < 4 ==> cf[j] == MinFraction(pts[..i], b, j)
    {
      var dist := DistanceFromRect(pts[i], b);
      var pf := new real[4](k requires 0 <= k < 4 => dist[k]);
      assert pf[..] == dist;
      ScaleToRectFraction(pf, b);
      TakeMinima(cf, pf);
      forall j | 0 <= j < 4
        ensures cf[j] == MinFraction(pts[..i + 1], b, j)
      {
        MinFractionStep(pts, b, j, i);
      }
    }
    assert pts[..|pts|] == pts;
  }

  /**
   * The cf array of getCropFraction: seeded with 1, zeroed when there are no clip points, then
   * lowered to each point's fractions in turn.
   */
  method CropFractionOver(pts: seq<Point>, b: Bounds) returns (r: seq<real>)
    requires pts != [] ==> NonDegenerate(b)
    ensures r == CropOf(pts, b)
  {
    var cf := new real[4](_ => 1.0);
    if |pts| == 0 {
      for i := 0 to 4
        invariant forall k :: 0 <= k < i ==> cf[k] == 0.0
      {
        cf[i] := 0.0;
      }
      assert cf[..] == [0.0, 0.0, 0.0, 0.0];
    }
    LowerToFractions(cf, pts, b);
    if |pts| > 0 {
      assert cf[..] == [MinFraction(pts, b, 0), MinFraction(pts, b, 1), MinFraction(pts, b, 2), MinFraction(pts, b, 3)];
    }
    return cf[..];
  }

  /** getCropFraction(img, clip). */
  method GetCropFraction(trig: Trig, img: map<string, string>, clip: Node) returns (r: Checked<seq<real>>)
    requires clip.Element? && CropDefined(trig, img, clip)
    ensures r == CropFraction(trig, img, clip)
  {
    var imgBounds := GetRectBounds(img);
    if imgBounds.Err? {
      return Err(imgBounds.error);
    }
    var clipPoints := GetClipPoints(trig, clip);
    if clipPoints.Err? {
      return Err(clipPoints.error);
    }
    var cf := CropFractionOver(clipPoints.value, imgBounds.value);
    return Ok(cf);
  }

  // ---------------------------------------------------------------------------------------------
  // Properties

  /** Attributes written as whole numbers are read back as the rectangle they describe. */
  lemma RectBoundsOfWholeNumbers(attrs: map<string, string>, x: nat, y: nat, w: nat, h: nat)
    requires "x" in attrs && attrs["x"] == NatToDigits(x) && "y" in attrs && attrs["y"] == NatToDigits(y)
    requires "width" in attrs && attrs["width"] == NatToDigits(w) && "height" in attrs && attrs["height"] == NatToDigits(h)
    ensures GetRectBounds(attrs) == Ok(Bounds(x as real, (x + w) as real, y as real, (y + h) as real))
  {
    ParseDoubleOfNat(x);
    ParseDoubleOfNat(y);
    ParseDoubleOfNat(w);
    ParseDoubleOfNat(h);
  }

  /**
   * getRectBounds succeeds exactly when x, y, width and height all parse; the bounds then start at
   * (x, y) and span width and height, and a failure is a NumberFormatException.
   */
  lemma RectBoundsRead(attrs: map<string, string>)
    ensures GetRectBounds(attrs).Ok? <==>
      ParseDouble(GetAttribute(attrs, "x")).Ok? && ParseDouble(GetAttribute(attrs, "y")).Ok? &&
      ParseDouble(GetAttribute(attrs, "width")).Ok? && ParseDouble(GetAttribute(attrs, "height")).Ok?
    ensures GetRectBounds(attrs).Err? ==> GetRectBounds(attrs).error.NumberFormat?
    ensures GetRectBounds(attrs).Ok? ==>
      var b := GetRectBounds(attrs).value;
      ParseDouble(GetAttribute(attrs, "x")) == Ok(b.x0) && ParseDouble(GetAttribute(attrs, "y")) == Ok(b.y0) &&
      ParseDouble(GetAttribute(attrs, "width")) == Ok(b.x1 - b.x0) &&
      ParseDouble(GetAttribute(attrs, "height")) == Ok(b.y1 - b.y0)
  {
  }

  /** rectBoundsToPointList gives exactly the four corners of the rectangle. */
  lemma RectCorners(b: Bounds)
    ensures |RectBoundsToPointList(b)| == 4
    ensures forall k :: 0 <= k < 4 ==>
      var c := RectBoundsToPointList(b)[k];
      (c.x == b.x0 || c.x == b.x1) && (c.y == b.y0 || c.y == b.y1)
    ensures forall px, py :: (px == b.x0 || px == b.x1) && (py == b.y0 || py == b.y1) ==>
      Point(px, py) in RectBoundsToPointList(b)
  {
    var c := RectBoundsToPointList(b);
    assert c[0] == Point(b.x0, b.y0) && c[1] == Point(b.x0, b.y1);
    assert c[2] == Point(b.x1, b.y0) && c[3] == Point(b.x1, b.y1);
  }

  /** A rect without `x`, or with `x` but without `y`, raises: there is no default of 0. */
  lemma MissingPositionRaises(attrs: map<string, string>)
    requires "x" !in attrs || ("y" !in attrs && ParseDouble(attrs["x"]).Ok?)
    ensures GetRectBounds(attrs) == Err(NumberFormat(""))
  {
    assert Trim("") == "";
  }

  /** Swapping x0 with x1, or y0 with y1, does not change the distances. */
  lemma DistanceSwapInvariant(p: Point, b: Bounds)
    ensures DistanceFromRect(p, Bounds(b.x1, b.x0, b.y0, b.y1)) == DistanceFromRect(p, b)
    ensures DistanceFromRect(p, Bounds(b.x0, b.x1, b.y1, b.y0)) == DistanceFromRect(p, b)
  {
  }

  /** isPointInRect holds exactly when the point lies strictly inside all four edges. */
  lemma InRectIffAllDistancesPositive(p: Point, b: Bounds)
    ensures IsPointInRect(p, b) <==> forall j :: 0 <= j < 4 ==> DistanceFromRect(p, b)[j] > 0.0
  {
    var d := DistanceFromRect(p, b);
    if forall j :: 0 <= j < 4 ==> d[j] > 0.0 {
      assert d[0] > 0.0 && d[1] > 0.0 && d[2] > 0.0 && d[3] > 0.0;
    }
  }

  /** After scaleToRectFraction the top and bottom fractions add up to 1, as do left and right. */
  lemma FractionPairsSumToOne(p: Point, b: Bounds)
    requires NonDegenerate(b)
    ensures Fraction(p, b, 0) + Fraction(p, b, 1) == 1.0
    ensures Fraction(p, b, 2) + Fraction(p, b, 3) == 1.0
  {
    var d := DistanceFromRect(p, b);
    var h := Abs(b.y0 - b.y1);
    var w := Abs(b.x0 - b.x1);
    assert d[0] + d[1] == h && d[2] + d[3] == w;
    assert Fraction(p, b, 0) == d[0] / h && Fraction(p, b, 1) == d[1] / h;
    assert Fraction(p, b, 2) == d[2] / w && Fraction(p, b, 3) == d[3] / w;
    SumOfQuotients(d[0], d[1], h);
    SumOfQuotients(d[2], d[3], w);
  }

  lemma SumOfQuotients(u: real, v: real, e: real)
    requires e != 0.0 && u + v == e
    ensures u / e + v / e == 1.0
  {
    assert u / e + v / e == (u + v) / e;
  }

  /** Each fraction has the sign of its distance: negative exactly beyond that edge. */
  lemma FractionSign(p: Point, b: Bounds, j: nat)
    requires NonDegenerate(b) && j < 4
    ensures Fraction(p, b, j) < 0.0 <==> DistanceFromRect(p, b)[j] < 0.0
  {
    var d := DistanceFromRect(p, b);
    var e := if j < 2 then Abs(b.y0 - b.y1) else Abs(b.x0 - b.x1);
    assert Fraction(p, b, j) == d[j] / e && e > 0.0;
    if d[j] < 0.0 {
      assert d[j] / e < 0.0;
    } else {
      assert d[j] / e >= 0.0;
    }
  }

  /** A first `rect` child whose corners cannot be read makes the whole list fail the same way. */
  lemma ShapeFails(trig: Trig, children: seq<Node>)
    requires children != [] && children[0].Element? && children[0].name == "rect"
    requires RectPoints(trig, children[0].attrs).Err?
    ensures ClipShapes(trig, children) == Err(RectPoints(trig, children[0].attrs).error)
  {
  }

  /** An element child the first loop of getClipPoints gathers: a `rect` whose corners can be read. */
  predicate ReadableRect(trig: Trig, n: Node) {
    n.Element? && n.name == "rect" && RectPoints(trig, n.attrs).Ok?
  }

  /** The exception an element child that is not a readable rect raises. */
  function ShapeError(trig: Trig, n: Node): Exception
    requires n.Element? && !ReadableRect(trig, n)
  {
    if n.name != "rect" then UnsupportedClipShape(n.name) else RectPoints(trig, n.attrs).error
  }

  /**
   * The first element child that is not a readable rect decides the exception of the first loop:
   * UnsupportedClipShape for a non-rect, the rect's own exception for an unreadable rect.
   */
  lemma {:induction false} FirstBadChildDecides(trig: Trig, children: seq<Node>, k: nat)
    requires k < |children| && children[k].Element? && !ReadableRect(trig, children[k])
    requires forall i :: 0 <= i < k && children[i].Element? ==> ReadableRect(trig, children[i])
    ensures ClipShapes(trig, children) == Err(ShapeError(trig, children[k]))
    decreases k
  {
    if k > 0 {
      var tail := children[1..];
      assert tail[k - 1] == children[k];
      assert forall i :: 0 <= i < k - 1 ==> tail[i] == children[i + 1];
      FirstBadChildDecides(trig, tail, k - 1);
      assert children[0].Element? ==> ReadableRect(trig, children[0]);
    }
  }

  /** A clip whose children are all text gathers no corner lists. */
  lemma {:induction false} ClipShapesOfText(trig: Trig, children: seq<Node>)
    requires forall k :: 0 <= k < |children| ==> children[k].Text?
    ensures ClipShapes(trig, children) == Ok([])
    decreases |children|
  {
    if children != [] {
      assert children[0].Text?;
      ClipShapesOfText(trig, children[1..]);
    }
  }

  /** getCropFraction gives (0, 0, 0, 0) for a clip without element children. */
  lemma CropOfEmptyClip(trig: Trig, img: map<string, string>, clip: Node)
    requires clip.Element? && forall k :: 0 <= k < |clip.children| ==> clip.children[k].Text?
    requires GetRectBounds(img).Ok?
    ensures CropDefined(trig, img, clip)
    ensures CropFraction(trig, img, clip) == Ok([0.0, 0.0, 0.0, 0.0])
  {
    ClipShapesOfText(trig, clip.children);
  }

  /** A clip with one `rect` child gives back that rect's corners, moved by its transform. */
  lemma ClipPointsOfOneRect(trig: Trig, clip: Node)
    requires clip.Element? && |clip.children| == 1
    requires clip.children[0].Element? && clip.children[0].name == "rect"
    ensures ClipPoints(trig, clip) == RectPoints(trig, clip.children[0].attrs)
  {
    var child := clip.children[0];
    assert clip.children[1..] == [];
    assert ClipShapes(trig, clip.children[1..]) == Ok([]);
    if RectPoints(trig, child.attrs).Ok? {
      var p := RectPoints(trig, child.attrs).value;
      ShapesStep(trig, clip.children, 0, []);
      PrependNothing(ClipShapes(trig, clip.children));
      assert ClipShapes(trig, clip.children) == Ok([] + [p] + []);
      assert [] + [p] + [] == [p];
      assert Zeros(0) == [] && p + [] == p;
      assert CopiedAtZero([p]) == p;
    } else {
      ShapeFails(trig, clip.children);
    }
  }

  /** The running minimum is the least fraction, when that is at most 1. */
  lemma MinIsLeast(pts: seq<Point>, b: Bounds, j: nat, v: real, i: nat)
    requires j < 4 && NonDegenerate(b) && v <= 1.0
    requires forall k :: 0 <= k < |pts| ==> Fraction(pts[k], b, j) >= v
    requires i < |pts| && Fraction(pts[i], b, j) == v
    ensures MinFraction(pts, b, j) == v
  {
    MinFractionIsMinimum(pts, b, j);
  }

  /** The attributes of the `rect` children of a clip, in document order. */
  function RectAttrs(children: seq<Node>): seq<map<string, string>>
    decreases |children|
  {
    if children == [] then []
    else
      match children[0]
      case Text(_) => RectAttrs(children[1..])
      case Element(name, attrs, _) => (if name == "rect" then [attrs] else []) + RectAttrs(children[1..])
  }

  /** Every element child is a `rect`: the only shape getClipPoints accepts. */
  predicate OnlyRects(children: seq<Node>) {
    forall k :: 0 <= k < |children| && children[k].Element? ==> children[k].name == "rect"
  }

  lemma OnlyRectsSplit(children: seq<Node>)
    requires children != []
    ensures OnlyRects(children) <==>
      (children[0].Element? ==> children[0].name == "rect") && OnlyRects(children[1..])
  {
    var tail := children[1..];
    if (children[0].Element? ==> children[0].name == "rect") && OnlyRects(tail) {
      forall k | 0 <= k < |children| && children[k].Element?
        ensures children[k].name == "rect"
      {
        if k > 0 {
          assert children[k] == tail[k - 1];
        }
      }
    }
    if OnlyRects(children) {
      forall k | 0 <= k < |tail| && tail[k].Element?
        ensures tail[k].name == "rect"
      {
        assert tail[k] == children[k + 1];
      }
    }
  }

  /**
   * The first loop of getClipPoints succeeds exactly when every element child is a `rect` whose
   * corners can be read, and then it gathers one corner list per `rect` child, in order.
   */
  lemma {:induction false} ShapesOfRects(trig: Trig, children: seq<Node>)
    ensures ClipShapes(trig, children).Ok? <==>
      OnlyRects(children) &&
      forall j :: 0 <= j < |RectAttrs(children)| ==> RectPoints(trig, RectAttrs(children)[j]).Ok?
    ensures ClipShapes(trig, children).Ok? ==>
      |ClipShapes(trig, children).value| == |RectAttrs(children)| &&
      forall j :: 0 <= j < |RectAttrs(children)| ==>
        Ok(ClipShapes(trig, children).value[j]) == RectPoints(trig, RectAttrs(children)[j])
    decreases |children|
  {
    if children != [] {
      var tail := children[1..];
      ShapesOfRects(trig, tail);
      OnlyRectsSplit(children);
      match children[0]
      case Text(_) =>
        assert RectAttrs(children) == RectAttrs(tail);
      case Element(name, attrs, _) =>
        if name == "rect" {
          var rs := RectAttrs(children);
          var rt := RectAttrs(tail);
          assert rs == [attrs] + rt;
          if RectPoints(trig, attrs).Err? {
            assert rs[0] == attrs;
          } else if ClipShapes(trig, tail).Err? {
            RectsAfterFirst(trig, rs, rt);
          } else {
            RectFirst(trig, children);
          }
        }
    }
  }

  /** All of [a] + rt readable means all of rt readable. */
  lemma RectsAfterFirst(trig: Trig, rs: seq<map<string, string>>, rt: seq<map<string, string>>)
    requires rs != [] && rs[1..] == rt
    ensures (forall j :: 0 <= j < |rs| ==> RectPoints(trig, rs[j]).Ok?) ==>
      forall j :: 0 <= j < |rt| ==> RectPoints(trig, rt[j]).Ok?
  {
    if forall j :: 0 <= j < |rs| ==> RectPoints(trig, rs[j]).Ok? {
      forall j | 0 <= j < |rt|
        ensures RectPoints(trig, rt[j]).Ok?
      {
        assert rt[j] == rs[j + 1];
      }
    }
  }

  /** The step of ShapesOfRects for a first `rect` child that can be read, before a readable rest. */
  lemma RectFirst(trig: Trig, children: seq<Node>)
    requires children != [] && children[0].Element? && children[0].name == "rect"
    requires RectPoints(trig, children[0].attrs).Ok? && ClipShapes(trig, children[1..]).Ok?
    requires |ClipShapes(trig, children[1..]).value| == |RectAttrs(children[1..])|
    requires forall j :: 0 <= j < |RectAttrs(children[1..])| ==>
      Ok(ClipShapes(trig, children[1..]).value[j]) == RectPoints(trig, RectAttrs(children[1..])[j])
    ensures ClipShapes(trig, children).Ok?
    ensures |ClipShapes(trig, children).value| == |RectAttrs(children)|
    ensures forall j :: 0 <= j < |RectAttrs(children)| ==>
      Ok(ClipShapes(trig, children).value[j]) == RectPoints(trig, RectAttrs(children)[j])
  {
    var attrs := children[0].attrs;
    var rt := RectAttrs(children[1..]);
    var vt := ClipShapes(trig, children[1..]).value;
    assert RectAttrs(children) == [attrs] + rt;
    assert ClipShapes(trig, children).value == [RectPoints(trig, attrs).value] + vt;
    ConsMatches(a => RectPoints(trig, a), attrs, rt, RectPoints(trig, attrs).value, vt);
  }

  lemma ConsMatches<A, T>(f: A -> Checked<T>, a: A, rt: seq<A>, p: T, vt: seq<T>)
    requires Ok(p) == f(a) && |vt| == |rt|
    requires forall j :: 0 <= j < |rt| ==> Ok(vt[j]) == f(rt[j])
    ensures forall j :: 0 <= j < |[a] + rt| ==> Ok(([p] + vt)[j]) == f(([a] + rt)[j])
  {
    forall j | 0 <= j < |[a] + rt|
      ensures Ok(([p] + vt)[j]) == f(([a] + rt)[j])
    {
      if j > 0 {
        assert ([a] + rt)[j] == rt[j - 1] && ([p] + vt)[j] == vt[j - 1];
      }
    }
  }


  /** Any element child that is not a `rect` makes getClipPoints raise, wherever it stands. */
  lemma NonRectRaises(trig: Trig, children: seq<Node>, k: nat)
    requires k < |children| && children[k].Element? && children[k].name != "rect"
    ensures ClipShapes(trig, children).Err?
  {
    ShapesOfRects(trig, children);
  }

  /**
   * getClipPoints succeeds exactly when every element child is a readable `rect`; it then returns
   * four points per `rect` child, of which the first four are the last rect's (moved) corners and
   * every later one is the origin.
   */
  lemma ClipPointsOfRects(trig: Trig, clip: Node)
    requires clip.Element?
    ensures ClipPoints(trig, clip).Ok? <==>
      OnlyRects(clip.children) &&
      forall j :: 0 <= j < |RectAttrs(clip.children)| ==> RectPoints(trig, RectAttrs(clip.children)[j]).Ok?
    ensures ClipPoints(trig, clip).Ok? ==>
      var pts := ClipPoints(trig, clip).value;
      var rs := RectAttrs(clip.children);
      |pts| == 4 * |rs| &&
      (rs != [] ==> Ok(pts[..4]) == RectPoints(trig, rs[|rs| - 1])) &&
      forall k :: 4 <= k < |pts| ==> pts[k] == Point(0.0, 0.0)
  {
    ShapesOfRects(trig, clip.children);
    var shapes := ClipShapes(trig, clip.children);
    if shapes.Ok? {
      var v := shapes.value;
      var pts := CopiedAtZero(v);
      assert ClipPoints(trig, clip) == Ok(pts);
      var rs := RectAttrs(clip.children);
      if rs != [] {
        assert pts[..4] == v[|v| - 1];
        assert Ok(v[|rs| - 1]) == RectPoints(trig, rs[|rs| - 1]);
      }
    }
  }

  /** Every corner lies inside or on each edge, and each edge passes through some corner. */
  lemma CornerFractions(b: Bounds, j: nat)
    requires NonDegenerate(b) && j < 4
    ensures forall k :: 0 <= k < 4 ==> Fraction(RectBoundsToPointList(b)[k], b, j) >= 0.0
    ensures exists k :: 0 <= k < 4 && Fraction(RectBoundsToPointList(b)[k], b, j) == 0.0
  {
    var c := RectBoundsToPointList(b);
    forall k | 0 <= k < 4
      ensures Fraction(c[k], b, j) >= 0.0
    {
      FractionSign(c[k], b, j);
    }
    var k := if j < 2 then (if (j == 0) == (b.y0 <= b.y1) then 0 else 1)
             else (if (j == 2) == (b.x0 <= b.x1) then 0 else 2);
    assert DistanceFromRect(c[k], b)[j] == 0.0;
  }

  /** A single untransformed `rect` with exactly the image's bounds crops nothing. */
  lemma CropOfImageRect(trig: Trig, img: map<string, string>, clip: Node, b: Bounds)
    requires clip.Element? && |clip.children| == 1
    requires clip.children[0].Element? && clip.children[0].name == "rect"
    requires GetRectBounds(clip.children[0].attrs) == Ok(b) && GetAttribute(clip.children[0].attrs, "transform") == ""
    requires GetRectBounds(img) == Ok(b) && NonDegenerate(b)
    ensures CropDefined(trig, img, clip)
    ensures CropFraction(trig, img, clip) == Ok([0.0, 0.0, 0.0, 0.0])
  {
    var corners := RectBoundsToPointList(b);
    ClipPointsOfOneRect(trig, clip);
    assert ClipPoints(trig, clip) == Ok(corners);
    forall j | 0 <= j < 4
      ensures MinFraction(corners, b, j) == 0.0
    {
      CornerFractions(b, j);
      MinFractionIsMinimum(corners, b, j);
    }
  }

  /** A point strictly inside the image's bounds lies strictly between 0 and 1 on every edge. */
  lemma InnerPointFractions(p: Point, b: Bounds)
    requires IsPointInRect(p, b)
    ensures NonDegenerate(b)
    ensures forall j :: 0 <= j < 4 ==> 0.0 < Fraction(p, b, j) < 1.0
  {
    FractionPairsSumToOne(p, b);
    var h := Abs(b.y0 - b.y1);
    var w := Abs(b.x0 - b.x1);
    var d := DistanceFromRect(p, b);
    assert d[0] > 0.0 && d[1] > 0.0 && d[2] > 0.0 && d[3] > 0.0;
    assert h > 0.0 && w > 0.0;
    assert Fraction(p, b, 0) == d[0] / h && Fraction(p, b, 1) == d[1] / h;
    assert Fraction(p, b, 2) == d[2] / w && Fraction(p, b, 3) == d[3] / w;
  }

  /**
   * A single untransformed `rect` lying strictly inside the image's bounds crops a fraction
   * strictly between 0 and 1 from every edge.
   */
  lemma CropOfInnerRect(trig: Trig, img: map<string, string>, clip: Node, b: Bounds, rb: Bounds)
    requires clip.Element? && |clip.children| == 1
    requires clip.children[0].Element? && clip.children[0].name == "rect"
    requires GetRectBounds(clip.children[0].attrs) == Ok(rb) && GetAttribute(clip.children[0].attrs, "transform") == ""
    requires GetRectBounds(img) == Ok(b)
    requires Min(b.x0, b.x1) < Min(rb.x0, rb.x1) && Max(rb.x0, rb.x1) < Max(b.x0, b.x1)
    requires Min(b.y0, b.y1) < Min(rb.y0, rb.y1) && Max(rb.y0, rb.y1) < Max(b.y0, b.y1)
    ensures CropDefined(trig, img, clip)
    ensures CropFraction(trig, img, clip).Ok?
    ensures forall j :: 0 <= j < 4 ==> 0.0 < CropFraction(trig, img, clip).value[j] < 1.0
  {
    InnerCorners(b, rb);
    InnerCrop(RectBoundsToPointList(rb), b);
    CropOfOneRect(trig, img, clip, b, rb);
  }

  /** Points strictly inside the image crop a fraction strictly between 0 and 1 from every edge. */
  lemma InnerCrop(pts: seq<Point>, b: Bounds)
    requires pts != [] && forall k :: 0 <= k < |pts| ==> IsPointInRect(pts[k], b)
    ensures NonDegenerate(b) && forall j :: 0 <= j < 4 ==> 0.0 < CropOf(pts, b)[j] < 1.0
  {
    MinOfInnerPoints(pts, b, 0);
    MinOfInnerPoints(pts, b, 1);
    MinOfInnerPoints(pts, b, 2);
    MinOfInnerPoints(pts, b, 3);
  }

  /**
   * A single untransformed `rect` hands its four corners to getCropFraction, so the crop is
   * the least fraction of those corners from each edge.
   */
  lemma CropOfOneRect(trig: Trig, img: map<string, string>, clip: Node, b: Bounds, rb: Bounds)
    requires clip.Element? && |clip.children| == 1
    requires clip.children[0].Element? && clip.children[0].name == "rect"
    requires GetRectBounds(clip.children[0].attrs) == Ok(rb) && GetAttribute(clip.children[0].attrs, "transform") == ""
    requires GetRectBounds(img) == Ok(b) && NonDegenerate(b)
    ensures CropDefined(trig, img, clip)
    ensures CropFraction(trig, img, clip) == Ok(CropOf(RectBoundsToPointList(rb), b))
  {
    var corners := RectBoundsToPointList(rb);
    assert RectPoints(trig, clip.children[0].attrs) == Ok(corners);
    ClipPointsOfOneRect(trig, clip);
  }

  lemma InnerCorners(b: Bounds, rb: Bounds)
    requires Min(b.x0, b.x1) < Min(rb.x0, rb.x1) && Max(rb.x0, rb.x1) < Max(b.x0, b.x1)
    requires Min(b.y0, b.y1) < Min(rb.y0, rb.y1) && Max(rb.y0, rb.y1) < Max(b.y0, b.y1)
    ensures forall k :: 0 <= k < |RectBoundsToPointList(rb)| ==> IsPointInRect(RectBoundsToPointList(rb)[k], b)
  {
  }

  /** The running minimum over points strictly inside the image lies strictly between 0 and 1. */
  lemma MinOfInnerPoints(pts: seq<Point>, b: Bounds, j: nat)
    requires pts != [] && j < 4 && forall k :: 0 <= k < |pts| ==> IsPointInRect(pts[k], b)
    ensures NonDegenerate(b) && 0.0 < MinFraction(pts, b, j) < 1.0
  {
    InnerPointFractions(pts[0], b);
    MinFractionIsMinimum(pts, b, j);
    forall k | 0 <= k < |pts|
      ensures 0.0 < Fraction(pts[k], b, j) < 1.0
    {
      InnerPointFractions(pts[k], b);
    }
  }

  /**
   * Because every corner list is copied to offset 0, a clip with two `rect` children hands the
   * origin (0, 0) to getCropFraction as a clip point. For an image whose top-left corner lies at
   * positive coordinates the top and left fractions then come out negative (crop nothing), however
   * far inside the image both rects lie.
   */
  lemma SecondRectBringsInOrigin(trig: Trig, img: map<string, string>, clip: Node, b: Bounds)
    requires clip.Element? && |clip.children| == 2
    requires forall k :: 0 <= k < 2 ==> clip.children[k].Element? && clip.children[k].name == "rect"
    requires forall k :: 0 <= k < 2 ==> RectPoints(trig, clip.children[k].attrs).Ok?
    requires GetRectBounds(img) == Ok(b) && NonDegenerate(b)
    requires Min(b.y0, b.y1) > 0.0 && Min(b.x0, b.x1) > 0.0
    ensures CropDefined(trig, img, clip)
    ensures CropFraction(trig, img, clip).Ok?
    ensures CropFraction(trig, img, clip).value[0] < 0.0 && CropFraction(trig, img, clip).value[2] < 0.0
  {
    var p := RectPoints(trig, clip.children[0].attrs).value;
    var q := RectPoints(trig, clip.children[1].attrs).value;
    ShapesStep(trig, clip.children, 0, []);
    ShapesStep(trig, clip.children, 1, [p]);
    PrependNothing(ClipShapes(trig, clip.children));
    assert clip.children[2..] == [];
    assert ClipShapes(trig, clip.children[2..]) == Ok([]);
    assert [p] + [q] + [] == [p, q];
    var pts := CopiedAtZero([p, q]);
    assert pts[4] == Point(0.0, 0.0);
    MinFractionIsMinimum(pts, b, 0);
    MinFractionIsMinimum(pts, b, 2);
    FractionSign(pts[4], b, 0);
    FractionSign(pts[4], b, 2);
  }
}
