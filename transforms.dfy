/**
 * The point-transform engine of EmbedAndCrop: the six SVG transform functions as affine maps in
 * the extension's row layout, the reading of a `transform` attribute token by token, and the
 * method that pushes one point through an attribute's tokens from left to right.
 */
module Transforms {
  import opened Wrappers
  import opened JavaLang

  datatype Point = Point(x: real, y: real)

  /**
   * An affine map in the extension's row layout {a, c, e, b, d, f}, which is NOT the column
   * order of SVG's matrix(a,b,c,d,e,f):  x' = m0·x + m1·y + m2,  y' = m3·x + m4·y + m5.
   */
  datatype Matrix = Matrix(m0: real, m1: real, m2: real, m3: real, m4: real, m5: real)

  /** Math.PI and the sine, cosine and tangent of java.lang.Math, which the model does not define. */
  datatype Trig = Trig(pi: real, sin: real -> real, cos: real -> real, tan: real -> real)

  /** Degrees to radians, as `a * Math.PI / 180`. */
  function Radians(trig: Trig, degrees: real): real {
    degrees * trig.pi / 180.0
  }

  const Identity: Matrix := Matrix(1.0, 0.0, 0.0, 0.0, 1.0, 0.0)

  // ---------------------------------------------------------------------------------------------
  // transformMatrix and its wrappers

  function TransformMatrix(p: Point, m: Matrix): (r: Point)
    ensures p == Point(0.0, 0.0) ==> r == Point(m.m2, m.m5)
    ensures m.m0 == 1.0 && m.m1 == 0.0 && m.m3 == 0.0 && m.m4 == 1.0 ==> r == Point(p.x + m.m2, p.y + m.m5)
  {
    Point(p.x * m.m0 + p.y * m.m1 + m.m2, p.x * m.m3 + p.y * m.m4 + m.m5)
  }

  function TranslateMatrix(tx: real, ty: real): Matrix {
    Matrix(1.0, 0.0, tx, 0.0, 1.0, ty)
  }

  function ScaleMatrix(sx: real, sy: real): Matrix {
    Matrix(sx, 0.0, 0.0, 0.0, sy, 0.0)
  }

  function RotateMatrix(trig: Trig, a: real): Matrix {
    var r := Radians(trig, a);
    Matrix(trig.cos(r), -trig.sin(r), 0.0, trig.sin(r), trig.cos(r), 0.0)
  }

  function SkewXMatrix(trig: Trig, a: real): Matrix {
    Matrix(1.0, trig.tan(Radians(trig, a)), 0.0, 0.0, 1.0, 0.0)
  }

  function SkewYMatrix(trig: Trig, a: real): Matrix {
    Matrix(1.0, 0.0, 0.0, trig.tan(Radians(trig, a)), 1.0, 0.0)
  }

  function TransformTranslate(p: Point, tx: real, ty: real): (r: Point)
    ensures r == Point(p.x + tx, p.y + ty)
  {
    TransformMatrix(p, TranslateMatrix(tx, ty))
  }

  function TransformScale(p: Point, sx: real, sy: real): (r: Point)
    ensures r == Point(sx * p.x, sy * p.y)
  {
    TransformMatrix(p, ScaleMatrix(sx, sy))
  }

  /** Rotation by `a` degrees about the origin. */
  function TransformRotate(trig: Trig, p: Point, a: real): (r: Point)
    ensures var c, s := trig.cos(Radians(trig, a)), trig.sin(Radians(trig, a));
      r == Point(c * p.x - s * p.y, s * p.x + c * p.y)
  {
    TransformMatrix(p, RotateMatrix(trig, a))
  }

  /**
   * rotate(a, cx, cy) as the extension does it: move by +(cx, cy), rotate about the origin, move
   * by -(cx, cy). (SVG's rotation about (cx, cy) moves by -(cx, cy) first.)
   */
  function TransformRotateAbout(trig: Trig, p: Point, a: real, cx: real, cy: real): (r: Point)
    ensures var c, s := trig.cos(Radians(trig, a)), trig.sin(Radians(trig, a));
      r == Point(c * (p.x + cx) - s * (p.y + cy) - cx, s * (p.x + cx) + c * (p.y + cy) - cy)
  {
    TransformTranslate(TransformRotate(trig, TransformTranslate(p, cx, cy), a), -cx, -cy)
  }

  function TransformSkewX(trig: Trig, p: Point, a: real): (r: Point)
    ensures r == Point(p.x + trig.tan(Radians(trig, a)) * p.y, p.y)
  {
    TransformMatrix(p, SkewXMatrix(trig, a))
  }

  function TransformSkewY(trig: Trig, p: Point, a: real): (r: Point)
    ensures r == Point(p.x, trig.tan(Radians(trig, a)) * p.x + p.y)
  {
    TransformMatrix(p, SkewYMatrix(trig, a))
  }

  /** A translation followed by the opposite translation leaves every point where it was. */
  lemma TranslateRoundTrip(p: Point, tx: real, ty: real)
    ensures TransformTranslate(TransformTranslate(p, tx, ty), -tx, -ty) == p
  {
  }

  // ---------------------------------------------------------------------------------------------
  // Composition: applying one matrix after another is applying a single matrix

  /** The matrix of "first A, then B". */
  function Then(a: Matrix, b: Matrix): Matrix {
    Matrix(b.m0 * a.m0 + b.m1 * a.m3, b.m0 * a.m1 + b.m1 * a.m4, b.m0 * a.m2 + b.m1 * a.m5 + b.m2,
           b.m3 * a.m0 + b.m4 * a.m3, b.m3 * a.m1 + b.m4 * a.m4, b.m3 * a.m2 + b.m4 * a.m5 + b.m5)
  }

  /** One coordinate of a matrix applied after another, regrouped by the point's coordinates. */
  lemma RowAfterRows(x: real, y: real, r0: real, r1: real, r2: real, s0: real, s1: real, s2: real,
                     b0: real, b1: real, b2: real)
    ensures (x * r0 + y * r1 + r2) * b0 + (x * s0 + y * s1 + s2) * b1 + b2
         == x * (b0 * r0 + b1 * s0) + y * (b0 * r1 + b1 * s1) + (b0 * r2 + b1 * s2 + b2)
  {
  }

  /** The point a fraction s of the way from p to q. */
  function Between(p: Point, q: Point, s: real): Point {
    Point(p.x + s * (q.x - p.x), p.y + s * (q.y - p.y))
  }

  /**
   * transformMatrix is affine: the point s of the way from p to q goes to the point s of the way
   * from the image of p to the image of q, so straight lines stay straight.
   */
  lemma MatrixKeepsLines(p: Point, q: Point, s: real, m: Matrix)
    ensures TransformMatrix(Between(p, q, s), m) == Between(TransformMatrix(p, m), TransformMatrix(q, m), s)
  {
    var b := Between(p, q, s);
    var tp := TransformMatrix(p, m);
    var tq := TransformMatrix(q, m);
    var tb := TransformMatrix(b, m);
    assert b.x == p.x + s * (q.x - p.x) && b.y == p.y + s * (q.y - p.y);
    assert tp.x == p.x * m.m0 + p.y * m.m1 + m.m2 && tq.x == q.x * m.m0 + q.y * m.m1 + m.m2;
    assert tp.y == p.x * m.m3 + p.y * m.m4 + m.m5 && tq.y == q.x * m.m3 + q.y * m.m4 + m.m5;
    RowKeepsLines(p.x, p.y, q.x, q.y, s, m.m0, m.m1, m.m2);
    RowKeepsLines(p.x, p.y, q.x, q.y, s, m.m3, m.m4, m.m5);
    assert tb.x == tp.x + s * (tq.x - tp.x);
    assert tb.y == tp.y + s * (tq.y - tp.y);
  }

  /** One row of the matrix, c0 * x + c1 * y + c2, is affine in the point. */
  lemma RowKeepsLines(px: real, py: real, qx: real, qy: real, s: real, c0: real, c1: real, c2: real)
    ensures (px + s * (qx - px)) * c0 + (py + s * (qy - py)) * c1 + c2 ==
      (px * c0 + py * c1 + c2) + s * ((qx * c0 + qy * c1 + c2) - (px * c0 + py * c1 + c2))
  {
    assert (px + s * (qx - px)) * c0 == px * c0 + s * (qx * c0 - px * c0);
    assert (py + s * (qy - py)) * c1 == py * c1 + s * (qy * c1 - py * c1);
  }

  lemma ThenApplies(p: Point, a: Matrix, b: Matrix)
    ensures TransformMatrix(TransformMatrix(p, a), b) == TransformMatrix(p, Then(a, b))
  {
    var x, y := p.x, p.y;
    var ab := Then(a, b);
    RowAfterRows(x, y, a.m0, a.m1, a.m2, a.m3, a.m4, a.m5, b.m0, b.m1, b.m2);
    RowAfterRows(x, y, a.m0, a.m1, a.m2, a.m3, a.m4, a.m5, b.m3, b.m4, b.m5);
    assert ab.m0 == b.m0 * a.m0 + b.m1 * a.m3 && ab.m1 == b.m0 * a.m1 + b.m1 * a.m4;
    assert ab.m3 == b.m3 * a.m0 + b.m4 * a.m3 && ab.m4 == b.m3 * a.m1 + b.m4 * a.m4;
  }

  lemma ThenIdentity(a: Matrix)
    ensures Then(Identity, a) == a && Then(a, Identity) == a
  {
  }

  /** A matrix is fixed by where it sends the origin and the two unit points. */
  lemma MatrixByAction(m: Matrix, n: Matrix)
    requires TransformMatrix(Point(0.0, 0.0), m) == TransformMatrix(Point(0.0, 0.0), n)
    requires TransformMatrix(Point(1.0, 0.0), m) == TransformMatrix(Point(1.0, 0.0), n)
    requires TransformMatrix(Point(0.0, 1.0), m) == TransformMatrix(Point(0.0, 1.0), n)
    ensures m == n
  {
  }

  lemma ThenAssociative(a: Matrix, b: Matrix, c: Matrix)
    ensures Then(Then(a, b), c) == Then(a, Then(b, c))
  {
    forall p: Point
      ensures TransformMatrix(p, Then(Then(a, b), c)) == TransformMatrix(p, Then(a, Then(b, c)))
    {
      ThenApplies(p, a, b);
      ThenApplies(p, Then(a, b), c);
      ThenApplies(TransformMatrix(p, a), b, c);
      ThenApplies(p, a, Then(b, c));
    }
    MatrixByAction(Then(Then(a, b), c), Then(a, Then(b, c)));
  }

  // ---------------------------------------------------------------------------------------------
  // One item of a transform list

  /** One transform-list item as the extension reads it. */
  datatype Op =
    | MatrixOp(m: Matrix)
    | Translate(tx: real, ty: real)
    | Scale(sx: real, sy: real)
    | Rotate(angle: real)
    | RotateAbout(angle: real, cx: real, cy: real)
    | SkewX(angle: real)
    | SkewY(angle: real)
    | Ignored     // an unknown token, or rotate( with neither one nor three arguments

  function ApplyOp(trig: Trig, op: Op, p: Point): Point {
    match op
    case MatrixOp(m) => TransformMatrix(p, m)
    case Translate(tx, ty) => TransformTranslate(p, tx, ty)
    case Scale(sx, sy) => TransformScale(p, sx, sy)
    case Rotate(a) => TransformRotate(trig, p, a)
    case RotateAbout(a, cx, cy) => TransformRotateAbout(trig, p, a, cx, cy)
    case SkewX(a) => TransformSkewX(trig, p, a)
    case SkewY(a) => TransformSkewY(trig, p, a)
    case Ignored => p
  }

  /** The single matrix each item amounts to. */
  function OpMatrix(trig: Trig, op: Op): Matrix {
    match op
    case MatrixOp(m) => m
    case Translate(tx, ty) => TranslateMatrix(tx, ty)
    case Scale(sx, sy) => ScaleMatrix(sx, sy)
    case Rotate(a) => RotateMatrix(trig, a)
    case RotateAbout(a, cx, cy) =>
      Then(Then(TranslateMatrix(cx, cy), RotateMatrix(trig, a)), TranslateMatrix(-cx, -cy))
    case SkewX(a) => SkewXMatrix(trig, a)
    case SkewY(a) => SkewYMatrix(trig, a)
    case Ignored => Identity
  }

  /** Every item, rotate about a centre included, is an affine map. */
  lemma ApplyOpIsAffine(trig: Trig, op: Op, p: Point)
    ensures ApplyOp(trig, op, p) == TransformMatrix(p, OpMatrix(trig, op))
  {
    if op.RotateAbout? {
      var t1, r, t2 := TranslateMatrix(op.cx, op.cy), RotateMatrix(trig, op.angle), TranslateMatrix(-op.cx, -op.cy);
      ThenApplies(p, t1, r);
      ThenApplies(p, Then(t1, r), t2);
    }
  }

  // ---------------------------------------------------------------------------------------------
  // Reading one token

  /** The text between the token's first `(` and its last `)`. */
  function Arguments(t: string): Checked<string> {
    Substring(t, IndexOf(t, '(') + 1, LastIndexOf(t, ')'))
  }

  /** `new Double(u[k])`, which fails when the argument list is too short. */
  function ArgAt(u: seq<string>, k: nat): Checked<real> {
    if k < |u| then ParseDouble(u[k]) else Err(ArrayIndexOutOfBounds(k))
  }

  /** matrix(a,b,c,d,e,f), stored as {a, c, e, b, d, f}; arguments read in the source's order. */
  function ReadMatrix(t: string): Checked<Op> {
    var inner :- Arguments(t);
    var u := Split(inner, {','});
    var a :- ArgAt(u, 0);
    var c :- ArgAt(u, 2);
    var e :- ArgAt(u, 4);
    var b :- ArgAt(u, 1);
    var d :- ArgAt(u, 3);
    var f :- ArgAt(u, 5);
    Ok(MatrixOp(Matrix(a, c, e, b, d, f)))
  }

  /** translate(tx[,ty]): ty is 0 when there is no second argument. */
  function ReadTranslate(t: string): Checked<Op> {
    var inner :- Arguments(t);
    var u := Split(inner, {','});
    var tx :- ArgAt(u, 0);
    var ty :- if |u| > 1 then ArgAt(u, 1) else Ok(0.0);
    Ok(Translate(tx, ty))
  }

  /** scale(sx[,sy]): sy is sx when there is no second argument. */
  function ReadScale(t: string): Checked<Op> {
    var inner :- Arguments(t);
    var u := Split(inner, {','});
    var sx :- ArgAt(u, 0);
    var sy :- if |u| > 1 then ArgAt(u, 1) else ArgAt(u, 0);
    Ok(Scale(sx, sy))
  }

  /** rotate(a) or rotate(a,cx,cy); any other count is read for its angle and then ignored. */
  function ReadRotate(t: string): Checked<Op> {
    var inner :- Arguments(t);
    var u := Split(inner, {','});
    var a :- ArgAt(u, 0);
    if |u| == 1 then Ok(Rotate(a))
    else if |u| == 3 then
      var cx :- ArgAt(u, 1);
      var cy :- ArgAt(u, 2);
      Ok(RotateAbout(a, cx, cy))
    else Ok(Ignored)
  }

  /** skewX(a) or skewY(a): the whole argument text is one number. */
  function ReadSkew(t: string, alongX: bool): Checked<Op> {
    var inner :- Arguments(t);
    var a :- ParseDouble(inner);
    Ok(if alongX then SkewX(a) else SkewY(a))
  }

  /**
   * One token, dispatched on its prefix; a token with no known prefix is ignored. Unless
   * `trimmed` holds, the token is trimmed first.
   */
  function ReadToken(t: string, trimmed: bool): Checked<Op>
    decreases !trimmed
  {
    if !trimmed then ReadToken(Trim(t), true)
    else if "matrix(" <= t then ReadMatrix(t)
    else if "translate(" <= t then ReadTranslate(t)
    else if "scale(" <= t then ReadScale(t)
    else if "rotate(" <= t then ReadRotate(t)
    else if "skewX(" <= t then ReadSkew(t, true)
    else if "skewY(" <= t then ReadSkew(t, false)
    else Ok(Ignored)
  }

  /** The item one token of the attribute stands for. */
  function ParseOp(token: string): Checked<Op> {
    ReadToken(token, false)
  }

  // ---------------------------------------------------------------------------------------------
  // parseTransform

  /** The attribute trimmed and split at every single whitespace character. */
  function Tokens(transform: string): seq<string> {
    Split(Trim(transform), RegexSpace)
  }

  /** The tokens applied from left to right, each to the point the previous one produced. */
  function ApplyTokens(trig: Trig, p: Point, tokens: seq<string>): Checked<Point>
    decreases |tokens|
  {
    if tokens == [] then Ok(p)
    else
      var op :- ParseOp(tokens[0]);
      ApplyTokens(trig, ApplyOp(trig, op, p), tokens[1..])
  }

  /** What parseTransform computes: the point, moved by every token of the attribute in turn. */
  function TransformPoint(trig: Trig, p: Point, transform: string): Checked<Point> {
    if transform == "" then Ok(p) else ApplyTokens(trig, p, Tokens(transform))
  }

  /** parseTransform: rebinds the point token by token; a malformed token raises. */
  method ParseTransform(trig: Trig, point: Point, transform: string) returns (r: Checked<Point>)
    ensures r == TransformPoint(trig, point, transform)
  {
    if transform == "" {
      return Ok(point);
    }
    var tList := Tokens(transform);
    var p := point;
    var i := 0;
    while i < |tList|
      invariant 0 <= i <= |tList|
      invariant ApplyTokens(trig, point, tList) == ApplyTokens(trig, p, tList[i..])
    {
      assert tList[i..][1..] == tList[i + 1..];
      var op := ParseOp(tList[i]);
      if op.Err? {
        return Err(op.error);
      }
      p := ApplyOp(trig, op.value, p);
      i := i + 1;
    }
    return Ok(p);
  }

  // ---------------------------------------------------------------------------------------------
  // What a transform attribute amounts to

  /** Every token read, or the first error. */
  function ParseOps(tokens: seq<string>): Checked<seq<Op>>
    decreases |tokens|
  {
    if tokens == [] then Ok([])
    else
      var op :- ParseOp(tokens[0]);
      var rest :- ParseOps(tokens[1..]);
      Ok([op] + rest)
  }

  /** The matrix of a list of items, composed in list order: the first item acts first. */
  function Compose(trig: Trig, ops: seq<Op>): Matrix
    decreases |ops|
  {
    if ops == [] then Identity else Then(OpMatrix(trig, ops[0]), Compose(trig, ops[1..]))
  }

  /**
   * A token list moves a point by the composition of its items in textual order, and it fails
   * exactly when one of its tokens cannot be read, whatever the point.
   */
  lemma {:induction false} ApplyTokensIsCompose(trig: Trig, p: Point, tokens: seq<string>)
    ensures ParseOps(tokens).Err? ==> ApplyTokens(trig, p, tokens) == Err(ParseOps(tokens).error)
    ensures ParseOps(tokens).Ok? ==>
      ApplyTokens(trig, p, tokens) == Ok(TransformMatrix(p, Compose(trig, ParseOps(tokens).value)))
    decreases |tokens|
  {
    if tokens != [] {
      var op := ParseOp(tokens[0]);
      if op.Ok? {
        var q := ApplyOp(trig, op.value, p);
        ApplyTokensIsCompose(trig, q, tokens[1..]);
        var rest := ParseOps(tokens[1..]);
        if rest.Ok? {
          ApplyOpIsAffine(trig, op.value, p);
          ThenApplies(p, OpMatrix(trig, op.value), Compose(trig, rest.value));
          assert ParseOps(tokens).value[1..] == rest.value;
        }
      }
    }
  }

  /** Whether parseTransform raises does not depend on the point it is given. */
  lemma FailureIndependentOfPoint(trig: Trig, p: Point, q: Point, transform: string)
    ensures TransformPoint(trig, p, transform).Ok? == TransformPoint(trig, q, transform).Ok?
  {
    if transform != "" {
      ApplyTokensIsCompose(trig, p, Tokens(transform));
      ApplyTokensIsCompose(trig, q, Tokens(transform));
    }
  }

  /** Running the tokens of two lists one after the other is running the joined list. */
  lemma {:induction false} ApplyTokensAppend(trig: Trig, p: Point, a: seq<string>, b: seq<string>)
    ensures ApplyTokens(trig, p, a + b) ==
      match ApplyTokens(trig, p, a)
      case Ok(q) => ApplyTokens(trig, q, b)
      case Err(e) => Err(e)
    decreases |a|
  {
    if a != [] {
      assert (a + b)[0] == a[0] && (a + b)[1..] == a[1..] + b;
      var op := ParseOp(a[0]);
      if op.Ok? {
        ApplyTokensAppend(trig, ApplyOp(trig, op.value, p), a[1..], b);
      }
    } else {
      assert a + b == b;
    }
  }
}
