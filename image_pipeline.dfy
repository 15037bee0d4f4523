/**
 * processImg: the crop fractions of an image (none when it has no clip path), then the crop and
 * the new placement of putImgData. Loading the bitmap is not modelled: its size comes in as a
 * parameter, None standing for an image that loadImageData skips.
 */
module ImagePipeline {
  import opened Wrappers
  import opened JavaLang
  import opened Transforms
  import opened Dom
  import opened ClipGeometry
  import opened CropApply

  /** A clip path processImg can crop by: an element whose fractions are well defined. */
  predicate CroppableBy(trig: Trig, attrs: map<string, string>, clip: Option<Node>) {
    clip.Some? ==> clip.value.Element? && CropDefined(trig, attrs, clip.value)
  }

  /** The crop fractions processImg hands to putImgData: all zero without a clip path. */
  function Fractions(trig: Trig, attrs: map<string, string>, clip: Option<Node>): (r: Checked<seq<real>>)
    requires CroppableBy(trig, attrs, clip)
    ensures r.Ok? ==> |r.value| == 4
  {
    if clip.None? then Ok([0.0, 0.0, 0.0, 0.0]) else CropFraction(trig, attrs, clip.value)
  }

  /** The image's attributes after processImg, and the exception it raises, if any. */
  function Processed(trig: Trig, attrs: map<string, string>, clip: Option<Node>, fmt: real -> string,
                     bitmap: Option<(int, int)>): (map<string, string>, Option<Exception>)
    requires CroppableBy(trig, attrs, clip)
    requires bitmap.Some? ==> bitmap.value.0 > 0 && bitmap.value.1 > 0
  {
    match Fractions(trig, attrs, clip)
    case Err(e) => (attrs, Some(e))
    case Ok(cf) =>
      if bitmap.None? then (attrs, None)
      else
        var (w, h) := bitmap.value;
        match CropPlan(cf, w, h)
        case Err(e) => (attrs, Some(e))
        case Ok(c) =>
          match Placement(attrs, c.actual)
          case Err(e) => (attrs, Some(e))
          case Ok(f) => (Placed(attrs, fmt, f), None)
  }

  /**
   * processImg for an image whose bitmap, if loaded, is w x h pixels: getCropFraction when there
   * is a clip path, then putImgData.
   */
  method ProcessImg(trig: Trig, img: ImageElement, clip: Option<Node>, fmt: real -> string, bitmap: Option<(int, int)>)
    returns (r: Option<Exception>)
    requires CroppableBy(trig, img.attrs, clip)
    requires bitmap.Some? ==> bitmap.value.0 > 0 && bitmap.value.1 > 0
    modifies img
    ensures (img.attrs, r) == Processed(trig, old(img.attrs), clip, fmt, bitmap)
  {
    var cf: Checked<seq<real>> := Ok([0.0, 0.0, 0.0, 0.0]);
    if clip.Some? {
      cf := GetCropFraction(trig, img.attrs, clip.value);
    }
    if cf.Err? {
      return Some(cf.error);
    }
    if bitmap.None? {
      return None;
    }
    var (w, h) := bitmap.value;
    r := img.PutImgData(fmt, cf.value, w, h);
  }

  // ---------------------------------------------------------------------------------------------
  // Properties

  /**
   * An image without a clip path keeps its placement: its x, y, width and height are written
   * back with the values they had.
   */
  lemma UnclippedKeepsPlacement(trig: Trig, attrs: map<string, string>, fmt: real -> string, w: int, h: int, f: Frame)
    requires w > 0 && h > 0 && CurrentFrame(attrs) == Ok(f)
    ensures Processed(trig, attrs, None, fmt, Some((w, h))) == (Placed(attrs, fmt, f), None)
  {
    var zero := [0.0, 0.0, 0.0, 0.0];
    NonPositiveCropIsWhole(zero, w, h);
    ZeroCropKeepsPlacement(attrs);
  }

  /** The frame x, y, width, height as an image or a rect reads it. */
  predicate Reads(attrs: map<string, string>, x: real, y: real, w: real, h: real) {
    ParseDouble(GetAttribute(attrs, "x")) == Ok(x) && ParseDouble(GetAttribute(attrs, "y")) == Ok(y) &&
    ParseDouble(GetAttribute(attrs, "width")) == Ok(w) && ParseDouble(GetAttribute(attrs, "height")) == Ok(h)
  }

  /**
   * A 100 x 50 image at the origin, clipped by one untransformed rect at (10, 5) of size 80 x 40,
   * loses a tenth from every edge, whatever the spelling of those numbers.
   */
  lemma InnerRectFractions(trig: Trig, img: map<string, string>, clipAttrs: map<string, string>, rect: map<string, string>)
    requires Reads(img, 0.0, 0.0, 100.0, 50.0) && Reads(rect, 10.0, 5.0, 80.0, 40.0)
    requires GetAttribute(rect, "transform") == ""
    ensures var clip := Element("clipPath", clipAttrs, [Element("rect", rect, [])]);
      CropDefined(trig, img, clip) && CropFraction(trig, img, clip) == Ok([0.1, 0.1, 0.1, 0.1])
  {
    BoundsRead(img, 0.0, 0.0, 100.0, 50.0);
    BoundsRead(rect, 10.0, 5.0, 80.0, 40.0);
    var clip := Element("clipPath", clipAttrs, [Element("rect", rect, [])]);
    TenthOfBounds(trig, img, clip, GetRectBounds(img).value, GetRectBounds(rect).value);
  }

  /** The same crop, once the image's bounds b and the rect's bounds rb are read. */
  lemma TenthOfBounds(trig: Trig, img: map<string, string>, clip: Node, b: Bounds, rb: Bounds)
    requires clip.Element? && |clip.children| == 1
    requires clip.children[0].Element? && clip.children[0].name == "rect"
    requires GetRectBounds(clip.children[0].attrs) == Ok(rb) && GetAttribute(clip.children[0].attrs, "transform") == ""
    requires GetRectBounds(img) == Ok(b)
    requires b.x0 == 0.0 && b.x1 == 100.0 && b.y0 == 0.0 && b.y1 == 50.0
    requires rb.x0 == 10.0 && rb.x1 == 90.0 && rb.y0 == 5.0 && rb.y1 == 45.0
    ensures CropDefined(trig, img, clip) && CropFraction(trig, img, clip) == Ok([0.1, 0.1, 0.1, 0.1])
  {
    CropOfOneRect(trig, img, clip, b, rb);
    TenthOfEachEdge(RectBoundsToPointList(rb), b);
  }

  /** The bounds getRectBounds reads from x, y, width and height. */
  lemma BoundsRead(attrs: map<string, string>, x: real, y: real, w: real, h: real)
    requires Reads(attrs, x, y, w, h)
    ensures GetRectBounds(attrs) == Ok(Bounds(x, x + w, y, y + h))
  {
  }

  /** The corners of (10, 5, 80, 40) against the bounds of (0, 0, 100, 50): a tenth from every edge. */
  lemma TenthOfEachEdge(corners: seq<Point>, b: Bounds)
    requires b.x0 == 0.0 && b.x1 == 100.0 && b.y0 == 0.0 && b.y1 == 50.0
    requires |corners| == 4
    requires corners[0].x == 10.0 && corners[0].y == 5.0 && corners[1].x == 10.0 && corners[1].y == 45.0
    requires corners[2].x == 90.0 && corners[2].y == 5.0 && corners[3].x == 90.0 && corners[3].y == 45.0
    ensures NonDegenerate(b) && CropOf(corners, b) == [0.1, 0.1, 0.1, 0.1]
  {
    assert forall k :: 0 <= k < |corners| ==> 10.0 <= corners[k].x <= 90.0 && 5.0 <= corners[k].y <= 45.0;
    CropOfTenths(corners, b);
  }

  /**
   * Points at least a tenth inside every edge of (0, 0, 100, 50), with one of them exactly a
   * tenth from each edge, crop a tenth from every edge.
   */
  lemma CropOfTenths(corners: seq<Point>, b: Bounds)
    requires b.x0 == 0.0 && b.x1 == 100.0 && b.y0 == 0.0 && b.y1 == 50.0
    requires forall k :: 0 <= k < |corners| ==> 10.0 <= corners[k].x <= 90.0 && 5.0 <= corners[k].y <= 45.0
    requires |corners| == 4 && corners[0].y == 5.0 && corners[3].y == 45.0 && corners[1].x == 10.0 && corners[2].x == 90.0
    ensures NonDegenerate(b) && CropOf(corners, b) == [0.1, 0.1, 0.1, 0.1]
  {
    TenthOfEdge(corners, b, 0, 0);
    TenthOfEdge(corners, b, 1, 3);
    TenthOfEdge(corners, b, 2, 1);
    TenthOfEdge(corners, b, 3, 2);
  }

  /** Edge j of points at least a tenth inside (0, 0, 100, 50), point i exactly a tenth from it. */
  lemma TenthOfEdge(corners: seq<Point>, b: Bounds, j: nat, i: nat)
    requires b.x0 == 0.0 && b.x1 == 100.0 && b.y0 == 0.0 && b.y1 == 50.0
    requires forall k :: 0 <= k < |corners| ==> 10.0 <= corners[k].x <= 90.0 && 5.0 <= corners[k].y <= 45.0
    requires j < 4 && i < |corners| && OnEdge(corners[i], j)
    ensures NonDegenerate(b) && MinFraction(corners, b, j) == 0.1
  {
    forall k | 0 <= k < |corners|
      ensures Fraction(corners[k], b, j) >= 0.1
    {
      TenthAtLeast(corners[k], b);
    }
    ExactTenth(corners[i], b, j);
    MinIsLeast(corners, b, j, 0.1, i);
  }

  /** The point lies on edge j of the rect (10, 5, 80, 40): top, bottom, left, right. */
  predicate OnEdge(p: Point, j: nat) {
    (j == 0 && p.y == 5.0) || (j == 1 && p.y == 45.0) || (j == 2 && p.x == 10.0) || (j == 3 && p.x == 90.0)
  }

  /** A point on edge j of (10, 5, 80, 40) lies exactly a tenth inside edge j of (0, 0, 100, 50). */
  lemma ExactTenth(p: Point, b: Bounds, j: nat)
    requires b.x0 == 0.0 && b.x1 == 100.0 && b.y0 == 0.0 && b.y1 == 50.0
    requires 10.0 <= p.x <= 90.0 && 5.0 <= p.y <= 45.0 && j < 4 && OnEdge(p, j)
    ensures NonDegenerate(b) && Fraction(p, b, j) == 0.1
  {
    FractionsInFrame(p, b);
  }

  /** A point at least a tenth of the width and the height inside every edge of (0, 0, 100, 50). */
  lemma TenthAtLeast(p: Point, b: Bounds)
    requires b.x0 == 0.0 && b.x1 == 100.0 && b.y0 == 0.0 && b.y1 == 50.0
    requires 10.0 <= p.x <= 90.0 && 5.0 <= p.y <= 45.0
    ensures NonDegenerate(b) && forall j :: 0 <= j < 4 ==> Fraction(p, b, j) >= 0.1
  {
    FractionsInFrame(p, b);
  }

  /** A point's four fractions against the bounds of (0, 0, 100, 50), for a point inside them. */
  lemma FractionsInFrame(p: Point, b: Bounds)
    requires b.x0 == 0.0 && b.x1 == 100.0 && b.y0 == 0.0 && b.y1 == 50.0
    requires 0.0 <= p.x <= 100.0 && 0.0 <= p.y <= 50.0
    ensures NonDegenerate(b)
    ensures Fraction(p, b, 0) == p.y / 50.0 && Fraction(p, b, 1) == (50.0 - p.y) / 50.0
    ensures Fraction(p, b, 2) == p.x / 100.0 && Fraction(p, b, 3) == (100.0 - p.x) / 100.0
  {
    assert DistanceFromRect(p, b) == [p.y, 50.0 - p.y, p.x, 100.0 - p.x];
  }

  /** A tenth from every edge of a 100 x 50 bitmap is 5 rows and 10 columns, exactly a tenth. */
  lemma TenthCropPlan()
    ensures CropPlan([0.1, 0.1, 0.1, 0.1], 100, 50) == Ok(Crop(10, 5, 80, 40, [0.1, 0.1, 0.1, 0.1]))
  {
    assert (0.1 * 50 as real).Floor == 5 && (0.1 * 100 as real).Floor == 10;
    assert ActualFraction(0.1, 50) == 0.1 && ActualFraction(0.1, 100) == 0.1;
    assert PixelEdges([0.1, 0.1, 0.1, 0.1], 100, 50) == [5, 5, 10, 10];
  }

  /**
   * The whole of processImg on that image: the crop of a tenth from every edge, and the image
   * placed at (10, 5) with size 80 x 40, where the clip rect lies.
   */
  lemma InnerRectPlacement(trig: Trig, img: map<string, string>, clipAttrs: map<string, string>, rect: map<string, string>, fmt: real -> string)
    requires Reads(img, 0.0, 0.0, 100.0, 50.0) && Reads(rect, 10.0, 5.0, 80.0, 40.0)
    requires GetAttribute(rect, "transform") == ""
    ensures var clip := Some(Element("clipPath", clipAttrs, [Element("rect", rect, [])]));
      CroppableBy(trig, img, clip) &&
      Processed(trig, img, clip, fmt, Some((100, 50))) == (Placed(img, fmt, Frame(10.0, 5.0, 80.0, 40.0)), None)
  {
    InnerRectFractions(trig, img, clipAttrs, rect);
    TenthCropPlan();
    var tenth := [0.1, 0.1, 0.1, 0.1];
    assert CurrentFrame(img) == Ok(Frame(0.0, 0.0, 100.0, 50.0));
    var g := Placement(img, tenth).value;
    assert g.x == 10.0 && g.y == 5.0 && g.width == 80.0 && g.height == 40.0;
    assert Placement(img, tenth) == Ok(Frame(10.0, 5.0, 80.0, 40.0));
  }

  /** An image whose bitmap is skipped is left alone unless its crop fractions raise. */
  lemma SkippedImageUntouched(trig: Trig, attrs: map<string, string>, clip: Option<Node>, fmt: real -> string)
    requires CroppableBy(trig, attrs, clip)
    ensures Processed(trig, attrs, clip, fmt, None).0 == attrs
    ensures Processed(trig, attrs, clip, fmt, None).1.Some? <==> Fractions(trig, attrs, clip).Err?
  {
  }
}
