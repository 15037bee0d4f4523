/**
 * What parseTransform does with whole attribute strings: tokens act from left to right, an
 * unknown token or a two-argument rotate( leaves the point alone, the one-argument forms of
 * translate and scale take their defaults, and matrix(1,0,0,1,tx,ty) moves points exactly as
 * translate(tx,ty) does.
 */
module TransformLaws {
  import opened Wrappers
  import opened JavaLang
  import opened Transforms

  // ---------------------------------------------------------------------------------------------
  // Building tokens

  /** Arguments joined with commas. */
  function JoinCommas(args: seq<string>): string
    requires |args| > 0
  {
    if |args| == 1 then args[0] else args[0] + "," + JoinCommas(args[1..])
  }

  /** The token `name(a1,...,an)`. */
  function Call(name: string, args: seq<string>): string
    requires |args| > 0
  {
    name + "(" + JoinCommas(args) + ")"
  }

  /** An argument as the lemmas below admit it: no comma, no `)`, no whitespace, no blank. */
  predicate PlainArg(a: string) {
    forall k :: 0 <= k < |a| ==> a[k] != ',' && a[k] != ')' && a[k] > ' '
  }

  /** A function name without `(` or blanks. */
  predicate PlainName(n: string) {
    |n| > 0 && forall k :: 0 <= k < |n| ==> n[k] != '(' && n[k] > ' '
  }

  // ---------------------------------------------------------------------------------------------
  // Splitting facts

  lemma {:induction false} SplitAllLastNonEmpty(s: string, seps: set<char>)
    requires |s| > 0 && s[|s| - 1] !in seps
    ensures var p := SplitAll(s, seps); p[|p| - 1] != ""
  {
    if |s| > 1 {
      SplitAllLastNonEmpty(s[1..], seps);
    }
  }

  /** A string that does not end in a separator splits into all of its raw pieces. */
  lemma SplitKeepsAll(s: string, seps: set<char>)
    requires |s| > 0 && s[|s| - 1] !in seps
    ensures Split(s, seps) == SplitAll(s, seps)
  {
    SplitAllLastNonEmpty(s, seps);
  }

  lemma {:induction false} SplitAllJoin(args: seq<string>)
    requires |args| > 0
    requires forall i :: 0 <= i < |args| ==> PlainArg(args[i])
    ensures SplitAll(JoinCommas(args), {','}) == args
  {
    if |args| == 1 {
      SplitAllNone(args[0], {','});
    } else {
      SplitAllJoin(args[1..]);
      SplitAllNone(args[0], {','});
      SplitAllAt(args[0], ',', JoinCommas(args[1..]), {','});
      assert args[0] + "," + JoinCommas(args[1..]) == args[0] + [','] + JoinCommas(args[1..]);
      assert [args[0]] + args[1..] == args;
    }
  }

  /** Comma-joined plain arguments split back into the same list, unless the last one is empty. */
  lemma SplitJoin(args: seq<string>)
    requires |args| > 0
    requires forall i :: 0 <= i < |args| ==> PlainArg(args[i])
    requires |args| == 1 || args[|args| - 1] != ""
    ensures Split(JoinCommas(args), {','}) == args
  {
    SplitAllJoin(args);
  }

  lemma {:induction false} JoinPlain(args: seq<string>)
    requires |args| > 0
    requires forall i :: 0 <= i < |args| ==> PlainArg(args[i])
    ensures forall k :: 0 <= k < |JoinCommas(args)| ==> JoinCommas(args)[k] != ')' && JoinCommas(args)[k] > ' '
  {
    if |args| > 1 {
      JoinPlain(args[1..]);
    }
  }

  /** The first `(` of `name(j)` is the one after the name. */
  lemma OpenParenOfCall(name: string, j: string)
    requires PlainName(name)
    ensures IndexOf(name + "(" + j + ")", '(') == |name|
  {
    var t := name + "(" + j + ")";
    forall k | 0 <= k < |name|
      ensures t[k] != '('
    {
      assert t[k] == name[k];
    }
    IndexOfIs(t, '(', |name|);
  }

  /** The last `)` of `name(j)` is its final character. */
  lemma CloseParenOfCall(name: string, j: string)
    ensures LastIndexOf(name + "(" + j + ")", ')') == |name| + |j| + 1
  {
    var t := name + "(" + j + ")";
    LastIndexOfIs(t, ')', |t| - 1);
  }

  /** The argument text of `name(args)` is the joined arguments. */
  lemma ArgumentsOfCall(name: string, args: seq<string>)
    requires PlainName(name) && |args| > 0
    ensures Arguments(Call(name, args)) == Ok(JoinCommas(args))
  {
    var j := JoinCommas(args);
    var t := name + "(" + j + ")";
    OpenParenOfCall(name, j);
    CloseParenOfCall(name, j);
    assert t[|name| + 1..|t| - 1] == j;
  }

  /** A token is its own trim: it starts with a letter of its name and ends with `)`. */
  lemma CallTrimmed(name: string, args: seq<string>)
    requires PlainName(name) && |args| > 0
    ensures Trim(Call(name, args)) == Call(name, args)
  {
    var t := Call(name, args);
    assert t[0] == name[0];
    assert t[|t| - 1] == ')';
    TrimOfTrimmed(t);
  }

  // ---------------------------------------------------------------------------------------------
  // One token

  /** The argument list of `name(args)`, split at commas, is `args` again. */
  lemma ArgumentListOfCall(name: string, args: seq<string>)
    requires PlainName(name) && |args| > 0
    requires forall i :: 0 <= i < |args| ==> PlainArg(args[i])
    requires |args| == 1 || args[|args| - 1] != ""
    ensures Arguments(Call(name, args)) == Ok(JoinCommas(args))
    ensures Split(JoinCommas(args), {','}) == args
  {
    ArgumentsOfCall(name, args);
    SplitJoin(args);
  }

  /** A string is not a prefix of one that starts differently. */
  lemma NotPrefix(p: string, t: string, k: nat)
    requires k < |p| && k < |t| && p[k] != t[k]
    ensures !(p <= t)
  {
  }

  /** A trimmed token is read by the reader its prefix names. */
  lemma DispatchMatrix(t: string)
    requires Trim(t) == t && "matrix(" <= t
    ensures ParseOp(t) == ReadMatrix(t)
  {
    assert ParseOp(t) == ReadToken(t, true);
  }

  lemma DispatchTranslate(t: string)
    requires Trim(t) == t && "translate(" <= t
    ensures ParseOp(t) == ReadTranslate(t)
  {
    NotPrefix("matrix(", t, 0);
    assert ParseOp(t) == ReadToken(t, true);
  }

  lemma DispatchScale(t: string)
    requires Trim(t) == t && "scale(" <= t
    ensures ParseOp(t) == ReadScale(t)
  {
    NotPrefix("matrix(", t, 0);
    NotPrefix("translate(", t, 0);
    assert ParseOp(t) == ReadToken(t, true);
  }

  lemma DispatchRotate(t: string)
    requires Trim(t) == t && "rotate(" <= t
    ensures ParseOp(t) == ReadRotate(t)
  {
    NotPrefix("matrix(", t, 0);
    NotPrefix("translate(", t, 0);
    NotPrefix("scale(", t, 0);
    assert ParseOp(t) == ReadToken(t, true);
  }

  /** matrix(a,b,c,d,e,f) is read into the row layout {a, c, e, b, d, f}. */
  lemma MatrixTokenRemap(args: seq<string>, v: seq<real>)
    requires |args| == 6 && |v| == 6 && args[5] != ""
    requires forall i :: 0 <= i < 6 ==> PlainArg(args[i]) && ParseDouble(args[i]) == Ok(v[i])
    ensures ParseOp(Call("matrix", args)) == Ok(MatrixOp(Matrix(v[0], v[2], v[4], v[1], v[3], v[5])))
  {
    var t := Call("matrix", args);
    CallTrimmed("matrix", args);
    assert "matrix(" <= t;
    DispatchMatrix(t);
    ArgumentListOfCall("matrix", args);
  }

  /** translate(tx) moves by (tx, 0). */
  lemma TranslateOneArgument(a: string, tx: real)
    requires PlainArg(a) && ParseDouble(a) == Ok(tx)
    ensures ParseOp(Call("translate", [a])) == Ok(Translate(tx, 0.0))
  {
    var t := Call("translate", [a]);
    CallTrimmed("translate", [a]);
    assert "translate(" <= t;
    DispatchTranslate(t);
    ArgumentListOfCall("translate", [a]);
  }

  /** translate(tx,ty) moves by (tx, ty). */
  lemma TranslateTwoArguments(a: string, b: string, tx: real, ty: real)
    requires PlainArg(a) && ParseDouble(a) == Ok(tx)
    requires PlainArg(b) && ParseDouble(b) == Ok(ty) && b != ""
    ensures ParseOp(Call("translate", [a, b])) == Ok(Translate(tx, ty))
  {
    var t := Call("translate", [a, b]);
    CallTrimmed("translate", [a, b]);
    assert "translate(" <= t;
    DispatchTranslate(t);
    ArgumentListOfCall("translate", [a, b]);
  }

  /** scale(s) scales both axes by s. */
  lemma ScaleOneArgument(a: string, s: real)
    requires PlainArg(a) && ParseDouble(a) == Ok(s)
    ensures ParseOp(Call("scale", [a])) == Ok(Scale(s, s))
  {
    var t := Call("scale", [a]);
    CallTrimmed("scale", [a]);
    assert "scale(" <= t;
    DispatchScale(t);
    ArgumentListOfCall("scale", [a]);
  }

  /**
   * rotate(a,b) is read (its angle must still parse) and then ignored; the second argument is
   * never parsed.
   */
  lemma RotateTwoArgumentsIgnored(a: string, b: string, angle: real)
    requires PlainArg(a) && ParseDouble(a) == Ok(angle)
    requires PlainArg(b) && b != ""
    ensures ParseOp(Call("rotate", [a, b])) == Ok(Ignored)
  {
    var t := Call("rotate", [a, b]);
    CallTrimmed("rotate", [a, b]);
    assert "rotate(" <= t;
    DispatchRotate(t);
    ArgumentListOfCall("rotate", [a, b]);
  }

  /** A token that starts with none of the six function names is skipped. */
  lemma UnknownTokenIgnored(t: string)
    requires !("matrix(" <= Trim(t)) && !("translate(" <= Trim(t)) && !("scale(" <= Trim(t))
    requires !("rotate(" <= Trim(t)) && !("skewX(" <= Trim(t)) && !("skewY(" <= Trim(t))
    ensures ParseOp(t) == Ok(Ignored)
  {
    assert ParseOp(t) == ReadToken(Trim(t), true);
  }

  // ---------------------------------------------------------------------------------------------
  // Whole attributes

  /** A non-empty string with no whitespace and no blank at either end. */
  predicate SingleToken(t: string) {
    |t| > 0 && t[0] > ' ' && t[|t| - 1] > ' ' && forall k :: 0 <= k < |t| ==> t[k] !in RegexSpace
  }

  /** A trimmed, non-empty attribute: it neither starts nor ends with a blank. */
  predicate TrimmedAttribute(t: string) {
    |t| > 0 && t[0] > ' ' && t[|t| - 1] > ' '
  }

  lemma TokensOfTrimmed(t: string)
    requires TrimmedAttribute(t)
    ensures Tokens(t) == SplitAll(t, RegexSpace)
  {
    TrimOfTrimmed(t);
    assert t[|t| - 1] !in RegexSpace;
    SplitKeepsAll(t, RegexSpace);
  }

  /** An attribute holding one token is that token applied to the point. */
  lemma TransformOfSingleToken(trig: Trig, p: Point, t: string)
    requires SingleToken(t)
    ensures TransformPoint(trig, p, t) ==
      match ParseOp(t)
      case Ok(op) => Ok(ApplyOp(trig, op, p))
      case Err(e) => Err(e)
  {
    TokensOfTrimmed(t);
    SplitAllNone(t, RegexSpace);
    assert Tokens(t) == [t];
    assert [t][1..] == [];
    match ParseOp(t)
    case Ok(op) =>
      assert ApplyTokens(trig, ApplyOp(trig, op, p), []) == Ok(ApplyOp(trig, op, p));
    case Err(e) =>
  }

  /** The empty attribute, and one made only of blanks, leave the point where it is. */
  lemma BlankTransformIsIdentity(trig: Trig, p: Point, t: string)
    requires forall k :: 0 <= k < |t| ==> t[k] <= ' '
    ensures TransformPoint(trig, p, t) == Ok(p)
  {
    if t != "" {
      TrimOfBlank(t);
      assert Tokens(t) == [""];
      assert ParseOp("") == Ok(Ignored);
    }
  }

  /** Tokens act from left to right: "A B" is A applied first, then B to A's result. */
  lemma TransformSequence(trig: Trig, p: Point, a: string, b: string)
    requires TrimmedAttribute(a) && TrimmedAttribute(b)
    ensures TransformPoint(trig, p, a + " " + b) ==
      match TransformPoint(trig, p, a)
      case Ok(q) => TransformPoint(trig, q, b)
      case Err(e) => Err(e)
  {
    var ab := a + " " + b;
    assert ab == a + [' '] + b;
    assert TrimmedAttribute(ab) by {
      assert ab[0] == a[0] && ab[|ab| - 1] == b[|b| - 1];
    }
    TokensOfTrimmed(a);
    TokensOfTrimmed(b);
    TokensOfTrimmed(ab);
    SplitAllAt(a, ' ', b, RegexSpace);
    ApplyTokensAppend(trig, p, Tokens(a), Tokens(b));
  }

  /** An attribute holding the single token `name(args)` applies that token's item. */
  lemma TransformOfCall(trig: Trig, p: Point, name: string, args: seq<string>, op: Op)
    requires PlainName(name) && |args| > 0
    requires forall i :: 0 <= i < |args| ==> PlainArg(args[i])
    requires ParseOp(Call(name, args)) == Ok(op)
    ensures TransformPoint(trig, p, Call(name, args)) == Ok(ApplyOp(trig, op, p))
  {
    CallSingleToken(name, args);
    TransformOfSingleToken(trig, p, Call(name, args));
  }

  /** The matrix 1,0,tx / 0,1,ty moves a point by (tx, ty). */
  lemma TranslationMatrix(q: Point, tx: real, ty: real)
    ensures TransformMatrix(q, Matrix(1.0, 0.0, tx, 0.0, 1.0, ty)) == Point(q.x + tx, q.y + ty)
  {
    var r := TransformMatrix(q, Matrix(1.0, 0.0, tx, 0.0, 1.0, ty));
    assert r.x == q.x * 1.0 + q.y * 0.0 + tx && r.y == q.x * 0.0 + q.y * 1.0 + ty;
  }

  /**
   * matrix(1,0,0,1,tx,ty) is read into an item that moves every point exactly as the item read
   * from translate(tx,ty) does, however the ones and zeros are spelt ("1", "1.0", "1e0", ...).
   * TransformOfCall lifts this to whole attributes.
   */
  lemma MatrixMatchesTranslate(trig: Trig, one: string, zero: string, x: string, y: string, tx: real, ty: real)
    requires PlainArg(one) && ParseDouble(one) == Ok(1.0)
    requires PlainArg(zero) && ParseDouble(zero) == Ok(0.0)
    requires PlainArg(x) && ParseDouble(x) == Ok(tx)
    requires PlainArg(y) && ParseDouble(y) == Ok(ty) && y != ""
    ensures ParseOp(Call("matrix", [one, zero, zero, one, x, y])).Ok?
    ensures ParseOp(Call("translate", [x, y])).Ok?
    ensures forall q :: ApplyOp(trig, ParseOp(Call("matrix", [one, zero, zero, one, x, y])).value, q)
                     == ApplyOp(trig, ParseOp(Call("translate", [x, y])).value, q)
                     == Point(q.x + tx, q.y + ty)
  {
    var m := Matrix(1.0, 0.0, tx, 0.0, 1.0, ty);
    MatrixTokenRemap([one, zero, zero, one, x, y], [1.0, 0.0, 0.0, 1.0, tx, ty]);
    TranslateTwoArguments(x, y, tx, ty);
    forall q
      ensures ApplyOp(trig, MatrixOp(m), q) == ApplyOp(trig, Translate(tx, ty), q) == Point(q.x + tx, q.y + ty)
    {
      TranslationMatrix(q, tx, ty);
    }
  }

  lemma CallSingleToken(name: string, args: seq<string>)
    requires PlainName(name) && |args| > 0
    requires forall i :: 0 <= i < |args| ==> PlainArg(args[i])
    ensures SingleToken(Call(name, args))
  {
    var t := Call(name, args);
    JoinPlain(args);
    var j := JoinCommas(args);
    assert t == name + ['('] + j + [')'];
    forall k | 0 <= k < |t|
      ensures t[k] > ' '
    {
      if k < |name| {
        assert t[k] == name[k];
      } else if |name| < k < |t| - 1 {
        assert t[k] == j[k - |name| - 1];
      }
    }
  }

  // ---------------------------------------------------------------------------------------------
  // Order matters

  /** A rotation whose cosine is 0 and sine is 1 is the quarter turn (x, y) to (-y, x). */
  lemma RotateQuarter(trig: Trig, a: real, p: Point)
    requires trig.cos(Radians(trig, a)) == 0.0 && trig.sin(Radians(trig, a)) == 1.0
    ensures ApplyOp(trig, Rotate(a), p) == Point(-p.y, p.x)
  {
  }

  /** With a quarter-turn rotation, translate(10,0) then rotate(a) sends (1,0) to (0,11)... */
  lemma TranslateThenRotate(trig: Trig, a: real)
    requires trig.cos(Radians(trig, a)) == 0.0 && trig.sin(Radians(trig, a)) == 1.0
    ensures ApplyOp(trig, Rotate(a), ApplyOp(trig, Translate(10.0, 0.0), Point(1.0, 0.0))) == Point(0.0, 11.0)
  {
    var q := ApplyOp(trig, Translate(10.0, 0.0), Point(1.0, 0.0));
    assert q == Point(11.0, 0.0);
    RotateQuarter(trig, a, q);
  }

  /** ...while rotate(a) then translate(10,0) sends it to (10,1): the order of tokens matters. */
  lemma RotateThenTranslate(trig: Trig, a: real)
    requires trig.cos(Radians(trig, a)) == 0.0 && trig.sin(Radians(trig, a)) == 1.0
    ensures ApplyOp(trig, Translate(10.0, 0.0), ApplyOp(trig, Rotate(a), Point(1.0, 0.0))) == Point(10.0, 1.0)
  {
    RotateQuarter(trig, a, Point(1.0, 0.0));
    assert ApplyOp(trig, Rotate(a), Point(1.0, 0.0)) == Point(0.0, 1.0);
  }
}
