/**
 * Applying a crop: the whole pixels putImgData cuts from each edge of the bitmap, the fractions
 * those pixels actually amount to, the new placement adjustImgPlacement writes into the image
 * element, and limitResolution's choice of whether and how much to downsample.
 *
 * Crop fractions are ordered {top, bottom, left, right}, as getCropFraction returns them.
 */
module CropApply {
  import opened Wrappers
  import opened JavaLang
  import opened Dom

  function MaxZero(v: int): int {
    if v >= 0 then v else 0
  }

  // ---------------------------------------------------------------------------------------------
  // The pixel crop of putImgData

  /** (int) Math.floor(fraction * dimension) for each edge: top and bottom by height, left and right by width. */
  function RawPixels(crop: seq<real>, w: int, h: int): seq<int>
    requires |crop| == 4
  {
    [(crop[0] * h as real).Floor, (crop[1] * h as real).Floor, (crop[2] * w as real).Floor, (crop[3] * w as real).Floor]
  }

  /** The pixels cut from an edge, for p = fraction * dimension: never fewer than none. */
  function EdgePixels(p: real): int {
    MaxZero(p.Floor)
  }

  /** The pixels cut from each edge, since nothing is cropped on the outside. */
  function PixelEdges(crop: seq<real>, w: int, h: int): (r: seq<int>)
    requires |crop| == 4
    ensures |r| == 4
  {
    [EdgePixels(crop[0] * h as real), EdgePixels(crop[1] * h as real),
     EdgePixels(crop[2] * w as real), EdgePixels(crop[3] * w as real)]
  }

  /** The fraction of the bitmap those whole pixels amount to, for p = fraction * dimension. */
  function EdgeFraction(p: real, d: int): real
    requires d > 0
  {
    (EdgePixels(p) as real) / (d as real)
  }

  /** The fraction of a dimension d the whole pixels cut for fraction c amount to. */
  function ActualFraction(c: real, d: int): real
    requires d > 0
  {
    EdgeFraction(c * d as real, d)
  }

  /** The fraction of the bitmap the whole pixels cut from each edge amount to. */
  function ActualFractions(crop: seq<real>, w: int, h: int): (r: seq<real>)
    requires |crop| == 4 && w > 0 && h > 0
    ensures |r| == 4
  {
    [ActualFraction(crop[0], h), ActualFraction(crop[1], h), ActualFraction(crop[2], w), ActualFraction(crop[3], w)]
  }

  /** The sub-image getSubimage cuts out, and the crop fractions it actually amounts to. */
  datatype Crop = Crop(x: int, y: int, width: int, height: int, actual: seq<real>)

  /**
   * The pixel crop of a w x h bitmap: getSubimage(left, top, w - left - right, h - top - bottom),
   * which raises when nothing of the bitmap would remain.
   */
  function CropPlan(crop: seq<real>, w: int, h: int): Checked<Crop>
    requires |crop| == 4 && w > 0 && h > 0
  {
    var e := PixelEdges(crop, w, h);
    var width := w - e[2] - e[3];
    var height := h - e[0] - e[1];
    if width <= 0 || height <= 0 then Err(EmptySubimage(width, height))
    else Ok(Crop(e[2], e[0], width, height, ActualFractions(crop, w, h)))
  }

  /** The icrop array of putImgData: the floored pixels, then clamped to zero edge by edge. */
  method CropImage(crop: seq<real>, w: int, h: int) returns (r: Checked<Crop>)
    requires |crop| == 4 && w > 0 && h > 0
    ensures r == CropPlan(crop, w, h)
  {
    var icrop := new int[4];
    icrop[0], icrop[1] := (crop[0] * h as real).Floor, (crop[1] * h as real).Floor;
    icrop[2], icrop[3] := (crop[2] * w as real).Floor, (crop[3] * w as real).Floor;
    ghost var raw := RawPixels(crop, w, h);
    for i := 0 to 4
      invariant forall k :: 0 <= k < i ==> icrop[k] == MaxZero(raw[k])
      invariant forall k :: i <= k < 4 ==> icrop[k] == raw[k]
    {
      icrop[i] := if icrop[i] >= 0 then icrop[i] else 0;
    }
    assert icrop[..] == PixelEdges(crop, w, h);
    assert forall k :: 0 <= k < 4 ==> MaxZero(raw[k]) == PixelEdges(crop, w, h)[k];
    var width := w - icrop[2] - icrop[3];
    var height := h - icrop[0] - icrop[1];
    if width <= 0 || height <= 0 {
      return Err(EmptySubimage(width, height));
    }
    var acrop := [icrop[0] as real / h as real, icrop[1] as real / h as real,
                  icrop[2] as real / w as real, icrop[3] as real / w as real];
    return Ok(Crop(icrop[2], icrop[0], width, height, acrop));
  }

  // ---------------------------------------------------------------------------------------------
  // adjustImgPlacement

  /** An image element's placement: x, y, width, height. */
  datatype Frame = Frame(x: real, y: real, width: real, height: real)

  /** Double.valueOf of an attribute, with 0 for one that does not parse (x and y only). */
  function OrZero(attrs: map<string, string>, key: string): real {
    match ParseDouble(GetAttribute(attrs, key))
    case Ok(v) => v
    case Err(_) => 0.0
  }

  /** The placement as adjustImgPlacement reads it: width and height must parse, x and y default to 0. */
  function CurrentFrame(attrs: map<string, string>): Checked<Frame> {
    var w :- ParseDouble(GetAttribute(attrs, "width"));
    var h :- ParseDouble(GetAttribute(attrs, "height"));
    Ok(Frame(OrZero(attrs, "x"), OrZero(attrs, "y"), w, h))
  }

  /** The placement adjustImgPlacement computes for the fractions actually cropped. */
  function Placement(attrs: map<string, string>, crop: seq<real>): Checked<Frame>
    requires |crop| == 4
  {
    var f :- CurrentFrame(attrs);
    Ok(Frame(f.x + crop[2] * f.width, f.y + crop[0] * f.height,
             f.width * (1.0 - crop[2] - crop[3]), f.height * (1.0 - crop[0] - crop[1])))
  }

  /** The placement for frame f, as Placement computes it once the frame is read. */
  lemma PlacementOfFrame(attrs: map<string, string>, crop: seq<real>, f: Frame)
    requires |crop| == 4 && CurrentFrame(attrs) == Ok(f)
    ensures Placement(attrs, crop) == Ok(Frame(f.x + crop[2] * f.width, f.y + crop[0] * f.height,
      f.width * (1.0 - crop[2] - crop[3]), f.height * (1.0 - crop[0] - crop[1])))
  {
    var p := Placement(attrs, crop);
    assert p.Ok?;
    assert p.value.x == f.x + crop[2] * f.width;
    assert p.value.y == f.y + crop[0] * f.height;
    assert p.value.width == f.width * (1.0 - crop[2] - crop[3]);
    assert p.value.height == f.height * (1.0 - crop[0] - crop[1]);
  }

  /** The attributes after setAttribute of x, y, width and height, in that order. */
  function Placed(attrs: map<string, string>, fmt: real -> string, f: Frame): map<string, string> {
    attrs["x" := fmt(f.x)]["y" := fmt(f.y)]["width" := fmt(f.width)]["height" := fmt(f.height)]
  }

  /** An SVG `image` element, whose attributes putImgData rewrites. */
  class ImageElement {
    var attrs: map<string, string>

    constructor (attrs0: map<string, string>)
      ensures attrs == attrs0
    {
      attrs := attrs0;
    }

    /**
     * adjustImgPlacement: moves the image by the fractions cropped from its left and top and
     * shrinks it by the fractions cropped from both sides. `fmt` stands for String.valueOf(double).
     */
    method AdjustImgPlacement(fmt: real -> string, crop: seq<real>) returns (r: Option<Exception>)
      requires |crop| == 4
      modifies this
      ensures Placement(old(attrs), crop).Err? ==>
        r == Some(Placement(old(attrs), crop).error) && attrs == old(attrs)
      ensures Placement(old(attrs), crop).Ok? ==>
        r == None && attrs == Placed(old(attrs), fmt, Placement(old(attrs), crop).value)
    {
      var w := ParseDouble(GetAttribute(attrs, "width"));
      if w.Err? {
        return Some(w.error);
      }
      var h := ParseDouble(GetAttribute(attrs, "height"));
      if h.Err? {
        return Some(h.error);
      }
      var nx := 0.0;
      var ny := 0.0;
      var x := ParseDouble(GetAttribute(attrs, "x"));
      if x.Ok? {
        nx := x.value;
      }
      var y := ParseDouble(GetAttribute(attrs, "y"));
      if y.Ok? {
        ny := y.value;
      }
      assert CurrentFrame(attrs) == Ok(Frame(nx, ny, w.value, h.value));
      PlacementOfFrame(attrs, crop, Frame(nx, ny, w.value, h.value));
      ghost var g := Placement(attrs, crop).value;
      nx := nx + crop[2] * w.value;
      ny := ny + crop[0] * h.value;
      var nw := w.value * (1.0 - crop[2] - crop[3]);
      var nh := h.value * (1.0 - crop[0] - crop[1]);
      assert g.x == nx && g.y == ny && g.width == nw && g.height == nh;
      attrs := attrs["x" := fmt(nx)];
      attrs := attrs["y" := fmt(ny)];
      attrs := attrs["width" := fmt(nw)];
      attrs := attrs["height" := fmt(nh)];
      return None;
    }

    /**
     * The crop part of putImgData for a w x h bitmap: the pixel crop, then the placement for the
     * fractions actually cropped. The bitmap itself is not modelled.
     */
    method PutImgData(fmt: real -> string, crop: seq<real>, w: int, h: int) returns (r: Option<Exception>)
      requires |crop| == 4 && w > 0 && h > 0
      modifies this
      ensures CropPlan(crop, w, h).Err? ==> r == Some(CropPlan(crop, w, h).error) && attrs == old(attrs)
      ensures CropPlan(crop, w, h).Ok? ==>
        var f := Placement(old(attrs), CropPlan(crop, w, h).value.actual);
        (f.Err? ==> r == Some(f.error) && attrs == old(attrs)) &&
        (f.Ok? ==> r == None && attrs == Placed(old(attrs), fmt, f.value))
    {
      var plan := CropImage(crop, w, h);
      if plan.Err? {
        return Some(plan.error);
      }
      r := AdjustImgPlacement(fmt, plan.value.actual);
    }
  }

  // ---------------------------------------------------------------------------------------------
  // The decision of limitResolution

  datatype Resample = Keep | Downsample(sx: real, sy: real)

  /**
   * limitResolution for a bitmap of pw x ph pixels shown at physical size physW x physH: the
   * resolution is pixels per unit; each scale factor is min(target / resolution, 1); the bitmap is
   * downsampled only when either resolution exceeds the maximum.
   */
  function LimitResolution(pw: int, ph: int, physW: real, physH: real, rTarget: real, rMax: real): (r: Resample)
    requires pw > 0 && ph > 0 && physW > 0.0 && physH > 0.0
    ensures r.Downsample? ==> r.sx <= 1.0 && r.sy <= 1.0
    ensures r.Downsample? && rTarget > 0.0 ==> r.sx > 0.0 && r.sy > 0.0
  {
    var rW := pw as real / physW;
    var rH := ph as real / physH;
    var sW := if rTarget / rW <= 1.0 then rTarget / rW else 1.0;
    var sH := if rTarget / rH <= 1.0 then rTarget / rH else 1.0;
    if rW > rMax || rH > rMax then Downsample(sW, sH) else Keep
  }

  // ---------------------------------------------------------------------------------------------
  // Properties

  lemma DivMonotone(a: real, b: real, d: real)
    requires a <= b && d > 0.0
    ensures a / d <= b / d
  {
    assert b / d - a / d == (b - a) / d;
  }

  lemma DivStrict(a: real, b: real, d: real)
    requires a < b && d > 0.0
    ensures a / d < b / d
  {
    assert b / d - a / d == (b - a) / d;
  }

  lemma EdgeFractionWithin(p: real, d: int)
    requires d > 0
    ensures 0.0 <= EdgeFraction(p, d) <= (if p > 0.0 then p / d as real else 0.0)
    ensures (if p > 0.0 then p / d as real else 0.0) - EdgeFraction(p, d) < 1.0 / d as real
  {
    var dr := d as real;
    var f := p.Floor;
    assert f as real <= p < f as real + 1.0;
    DivStrict(0.0, 1.0, dr);
    if f >= 0 {
      assert EdgeFraction(p, d) == f as real / dr;
      DivMonotone(0.0, f as real, dr);
      DivMonotone(f as real, p, dr);
      DivStrict(p, f as real + 1.0, dr);
      assert (f as real + 1.0) / dr == f as real / dr + 1.0 / dr;
    } else {
      assert EdgeFraction(p, d) == 0.0;
    }
  }

  lemma ProductOverFactor(c: real, d: int)
    requires d > 0
    ensures (c * d as real) / d as real == c
    ensures c > 0.0 <==> c * d as real > 0.0
  {
  }

  /** What was asked of an edge: the fraction, or nothing for a negative one. */
  function Asked(c: real): real {
    if c > 0.0 then c else 0.0
  }

  /** A fraction actually cropped: between none and what was asked, and short of it by under a pixel. */
  predicate WithinOnePixel(actual: real, c: real, d: int)
    requires d > 0
  {
    0.0 <= actual <= Asked(c) && Asked(c) - actual < 1.0 / d as real
  }

  lemma EdgeWithinAsked(c: real, d: int)
    requires d > 0
    ensures WithinOnePixel(ActualFraction(c, d), c, d)
  {
    EdgeFractionWithin(c * d as real, d);
    ProductOverFactor(c, d);
  }

  /**
   * The fraction actually cropped from each edge is never negative, never more than asked for,
   * and short of it by less than one pixel's worth of the bitmap's height (top, bottom) or width
   * (left, right).
   */
  lemma ActualWithinRequested(crop: seq<real>, w: int, h: int)
    requires |crop| == 4 && w > 0 && h > 0
    ensures WithinOnePixel(ActualFractions(crop, w, h)[0], crop[0], h)
    ensures WithinOnePixel(ActualFractions(crop, w, h)[1], crop[1], h)
    ensures WithinOnePixel(ActualFractions(crop, w, h)[2], crop[2], w)
    ensures WithinOnePixel(ActualFractions(crop, w, h)[3], crop[3], w)
  {
    EdgeWithinAsked(crop[0], h);
    EdgeWithinAsked(crop[1], h);
    EdgeWithinAsked(crop[2], w);
    EdgeWithinAsked(crop[3], w);
  }

  lemma PixelsOverBelowOne(m: int, n: int, d: int)
    requires d > 0
    ensures m as real / d as real + n as real / d as real < 1.0 <==> m + n < d
  {
    assert m as real / d as real + n as real / d as real == (m + n) as real / d as real;
    if m + n < d {
      DivMonotone((m + n) as real, (d - 1) as real, d as real);
      assert (d - 1) as real / d as real == 1.0 - 1.0 / d as real;
    } else {
      DivMonotone(d as real, (m + n) as real, d as real);
    }
  }

  /** The crop raises exactly when the fractions actually cropped from opposite edges reach 1. */
  lemma CropFailsIffNothingRemains(crop: seq<real>, w: int, h: int)
    requires |crop| == 4 && w > 0 && h > 0
    ensures CropPlan(crop, w, h).Ok? <==>
      ActualFractions(crop, w, h)[0] + ActualFractions(crop, w, h)[1] < 1.0 &&
      ActualFractions(crop, w, h)[2] + ActualFractions(crop, w, h)[3] < 1.0
  {
    var e := PixelEdges(crop, w, h);
    var a := ActualFractions(crop, w, h);
    assert a[0] == e[0] as real / h as real && a[1] == e[1] as real / h as real;
    assert a[2] == e[2] as real / w as real && a[3] == e[3] as real / w as real;
    PixelsOverBelowOne(e[0], e[1], h);
    PixelsOverBelowOne(e[2], e[3], w);
  }

  lemma NoPixelsForNonPositive(c: real, d: int)
    requires d > 0 && c <= 0.0
    ensures MaxZero((c * d as real).Floor) == 0
  {
    assert c * d as real <= 0.0;
  }

  /** Fractions of zero or less crop nothing: the sub-image is the whole bitmap. */
  lemma NonPositiveCropIsWhole(crop: seq<real>, w: int, h: int)
    requires |crop| == 4 && w > 0 && h > 0
    requires forall j :: 0 <= j < 4 ==> crop[j] <= 0.0
    ensures CropPlan(crop, w, h) == Ok(Crop(0, 0, w, h, [0.0, 0.0, 0.0, 0.0]))
  {
    NoPixelsForNonPositive(crop[0], h);
    NoPixelsForNonPositive(crop[1], h);
    NoPixelsForNonPositive(crop[2], w);
    NoPixelsForNonPositive(crop[3], w);
    assert PixelEdges(crop, w, h) == [0, 0, 0, 0];
  }

  /**
   * The new placement moves each edge of the image inwards by its fraction of the image's size:
   * left and top by the left and top fractions, right and bottom by the right and bottom ones.
   */
  lemma PlacementMovesEdges(attrs: map<string, string>, crop: seq<real>)
    requires |crop| == 4 && CurrentFrame(attrs).Ok?
    ensures Placement(attrs, crop).Ok?
    ensures var f := CurrentFrame(attrs).value; var g := Placement(attrs, crop).value;
      g.x == f.x + crop[2] * f.width && g.x + g.width == f.x + f.width - crop[3] * f.width &&
      g.y == f.y + crop[0] * f.height && g.y + g.height == f.y + f.height - crop[1] * f.height
  {
    var f := CurrentFrame(attrs).value;
    var g := Placement(attrs, crop).value;
    assert g.width == f.width - crop[2] * f.width - crop[3] * f.width;
    assert g.height == f.height - crop[0] * f.height - crop[1] * f.height;
  }

  /**
   * Cropping shrinks the image in place: for a frame of non-negative size and fractions that are
   * non-negative and leave something of each dimension, the new frame lies inside the old one.
   */
  lemma PlacementWithinFrame(attrs: map<string, string>, crop: seq<real>)
    requires |crop| == 4 && CurrentFrame(attrs).Ok?
    requires CurrentFrame(attrs).value.width >= 0.0 && CurrentFrame(attrs).value.height >= 0.0
    requires forall j :: 0 <= j < 4 ==> crop[j] >= 0.0
    requires crop[0] + crop[1] <= 1.0 && crop[2] + crop[3] <= 1.0
    ensures Placement(attrs, crop).Ok?
    ensures var f := CurrentFrame(attrs).value; var g := Placement(attrs, crop).value;
      f.x <= g.x && g.x + g.width <= f.x + f.width && 0.0 <= g.width &&
      f.y <= g.y && g.y + g.height <= f.y + f.height && 0.0 <= g.height
  {
    PlacementMovesEdges(attrs, crop);
    var f := CurrentFrame(attrs).value;
    var g := Placement(attrs, crop).value;
    NonNegativeProduct(crop[0], f.height);
    NonNegativeProduct(crop[1], f.height);
    NonNegativeProduct(crop[2], f.width);
    NonNegativeProduct(crop[3], f.width);
    NonNegativeProduct(1.0 - crop[2] - crop[3], f.width);
    NonNegativeProduct(1.0 - crop[0] - crop[1], f.height);
  }

  lemma NonNegativeProduct(a: real, b: real)
    requires a >= 0.0 && b >= 0.0
    ensures a * b >= 0.0
  {
  }

  /**
   * The placement putImgData writes after a crop that succeeds lies inside the image's old frame,
   * whatever fractions were asked for.
   */
  lemma CroppedPlacementWithin(attrs: map<string, string>, crop: seq<real>, w: int, h: int)
    requires |crop| == 4 && w > 0 && h > 0 && CropPlan(crop, w, h).Ok? && CurrentFrame(attrs).Ok?
    requires CurrentFrame(attrs).value.width >= 0.0 && CurrentFrame(attrs).value.height >= 0.0
    ensures Placement(attrs, CropPlan(crop, w, h).value.actual).Ok?
    ensures var f := CurrentFrame(attrs).value; var g := Placement(attrs, CropPlan(crop, w, h).value.actual).value;
      f.x <= g.x && g.x + g.width <= f.x + f.width && f.y <= g.y && g.y + g.height <= f.y + f.height
  {
    var a := ActualFractions(crop, w, h);
    assert CropPlan(crop, w, h).value.actual == a;
    CropFailsIffNothingRemains(crop, w, h);
    ActualWithinRequested(crop, w, h);
    PlacementWithinFrame(attrs, a);
  }

  /** An all-zero crop leaves the placement as it is read. */
  lemma ZeroCropKeepsPlacement(attrs: map<string, string>)
    ensures Placement(attrs, [0.0, 0.0, 0.0, 0.0]) == CurrentFrame(attrs)
  {
    if CurrentFrame(attrs).Ok? {
      var f := CurrentFrame(attrs).value;
      var zero := [0.0, 0.0, 0.0, 0.0];
      PlacementOfFrame(attrs, zero, f);
      assert f.x + zero[2] * f.width == f.x && f.y + zero[0] * f.height == f.y;
      assert f.width * (1.0 - zero[2] - zero[3]) == f.width && f.height * (1.0 - zero[0] - zero[1]) == f.height;
    }
  }

  /**
   * Reading back the attributes adjustImgPlacement wrote gives the placement it computed, when
   * String.valueOf and Double.valueOf agree on those four numbers.
   */
  lemma PlacedReadsBack(attrs: map<string, string>, fmt: real -> string, f: Frame)
    requires ParseDouble(fmt(f.x)) == Ok(f.x) && ParseDouble(fmt(f.y)) == Ok(f.y)
    requires ParseDouble(fmt(f.width)) == Ok(f.width) && ParseDouble(fmt(f.height)) == Ok(f.height)
    ensures CurrentFrame(Placed(attrs, fmt, f)) == Ok(f)
  {
    var p := Placed(attrs, fmt, f);
    assert GetAttribute(p, "x") == fmt(f.x) && GetAttribute(p, "y") == fmt(f.y);
    assert GetAttribute(p, "width") == fmt(f.width) && GetAttribute(p, "height") == fmt(f.height);
  }

  /**
   * The image is downsampled exactly when a resolution exceeds the maximum, and then each new
   * resolution is min(target, old resolution).
   */
  lemma DownsampleReachesTarget(pw: int, ph: int, physW: real, physH: real, rTarget: real, rMax: real)
    requires pw > 0 && ph > 0 && physW > 0.0 && physH > 0.0
    ensures LimitResolution(pw, ph, physW, physH, rTarget, rMax).Downsample? <==>
      pw as real / physW > rMax || ph as real / physH > rMax
    ensures LimitResolution(pw, ph, physW, physH, rTarget, rMax).Downsample? ==>
      var s := LimitResolution(pw, ph, physW, physH, rTarget, rMax);
      (pw as real / physW) * s.sx == (if rTarget <= pw as real / physW then rTarget else pw as real / physW) &&
      (ph as real / physH) * s.sy == (if rTarget <= ph as real / physH then rTarget else ph as real / physH)
  {
    var rW := pw as real / physW;
    var rH := ph as real / physH;
    assert rW > 0.0 && rH > 0.0;
    assert rTarget / rW <= 1.0 <==> rTarget <= rW;
    assert rTarget / rH <= 1.0 <==> rTarget <= rH;
    assert rW * (rTarget / rW) == rTarget;
    assert rH * (rTarget / rH) == rTarget;
  }
}
