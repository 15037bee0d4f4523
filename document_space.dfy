/**
 * transformToDocumentSpace: a point, or an array of points, pushed through the `transform`
 * attribute of an element and then through that of every ancestor, innermost first.
 *
 * The ancestor chain is a sequence of attribute values: entry 0 belongs to the element itself,
 * entry k + 1 to the parent of the node of entry k. A node that is not an element, and an element
 * without the attribute, contribute "" (getAttribute's value for a missing attribute).
 */
module DocumentSpace {
  import opened Wrappers
  import opened JavaLang
  import opened Transforms

  /** The single-point version: this node's transform, then the parent's, recursively. */
  function DocSpacePoint(trig: Trig, p: Point, chain: seq<string>): (r: Checked<Point>)
    ensures r.Err? <==> exists k :: 0 <= k < |chain| && Unreadable(trig, chain[k])
    decreases |chain|
  {
    if chain == [] then Ok(p)
    else
      FailureIndependentOfPoint(trig, p, Point(0.0, 0.0), chain[0]);
      UnreadableShift(trig, chain);
      var q :- if chain[0] != "" then TransformPoint(trig, p, chain[0]) else Ok(p);
      DocSpacePoint(trig, q, chain[1..])
  }

  /** A transform attribute that raises, whatever the point: a non-empty one that cannot be read. */
  predicate Unreadable(trig: Trig, transform: string) {
    transform != "" && TransformPoint(trig, Point(0.0, 0.0), transform).Err?
  }

  lemma UnreadableShift(trig: Trig, chain: seq<string>)
    requires chain != []
    ensures (exists k :: 0 <= k < |chain| && Unreadable(trig, chain[k])) <==>
      Unreadable(trig, chain[0]) || exists k :: 0 <= k < |chain[1..]| && Unreadable(trig, chain[1..][k])
  {
    if exists k :: 0 <= k < |chain| && Unreadable(trig, chain[k]) {
      var k :| 0 <= k < |chain| && Unreadable(trig, chain[k]);
      if k > 0 {
        assert chain[1..][k - 1] == chain[k];
      }
    }
    if exists k :: 0 <= k < |chain[1..]| && Unreadable(trig, chain[1..][k]) {
      var k :| 0 <= k < |chain[1..]| && Unreadable(trig, chain[1..][k]);
      assert chain[k + 1] == chain[1..][k];
    }
  }

  // ---------------------------------------------------------------------------------------------
  // The array version

  /**
   * The points after one level's loop, which writes points[i] in turn: the points up to the
   * first failure are moved, the rest are left alone, and the failure is reported.
   */
  function MoveAll(trig: Trig, ps: seq<Point>, transform: string): (r: (seq<Point>, Option<Exception>))
    ensures |r.0| == |ps|
    decreases |ps|
  {
    if ps == [] then ([], None)
    else
      match TransformPoint(trig, ps[0], transform)
      case Err(e) => (ps, Some(e))
      case Ok(q) =>
        var rest := MoveAll(trig, ps[1..], transform);
        ([q] + rest.0, rest.1)
  }

  /** The array contents after the recursive walk, and the exception it ends with, if any. */
  function DocSpacePoints(trig: Trig, ps: seq<Point>, chain: seq<string>): (r: (seq<Point>, Option<Exception>))
    ensures |r.0| == |ps|
    decreases |chain|
  {
    if chain == [] then (ps, None)
    else
      var level := if chain[0] != "" then MoveAll(trig, ps, chain[0]) else (ps, None);
      if level.1.Some? then level else DocSpacePoints(trig, level.0, chain[1..])
  }

  /**
   * transformToDocumentSpace(double[][], Node): overwrites every point with its image under this
   * node's transform, then does the same for the parent. An exception leaves the array as the
   * last loop left it.
   */
  method PointsToDocumentSpace(trig: Trig, points: array<Point>, chain: seq<string>) returns (r: Option<Exception>)
    modifies points
    ensures (points[..], r) == DocSpacePoints(trig, old(points[..]), chain)
    decreases |chain|
  {
    if chain == [] {
      return None;
    }
    if chain[0] != "" {
      r := MoveLevel(trig, points, chain[0]);
      if r.Some? {
        return;
      }
    }
    r := PointsToDocumentSpace(trig, points, chain[1..]);
  }

  /** The loop of one level: points[i] = parseTransform(points[i], transform) for each i in turn. */
  method MoveLevel(trig: Trig, points: array<Point>, t: string) returns (r: Option<Exception>)
    modifies points
    ensures (points[..], r) == MoveAll(trig, old(points[..]), t)
  {
    ghost var before := points[..];
    ghost var target := MoveAll(trig, before, t);
    var i := 0;
    assert before[0..] == before;
    while i < points.Length
      invariant 0 <= i <= points.Length
      invariant forall k :: 0 <= k < i ==> points[k] == target.0[k]
      invariant forall k :: i <= k < points.Length ==> points[k] == before[k]
      invariant MoveAll(trig, before[i..], t) == (target.0[i..], target.1)
    {
      var q := ParseTransform(trig, points[i], t);
      if q.Err? {
        MoveAllStop(trig, before, i, t, target);
        assert points[..] == target.0;
        return Some(q.error);
      }
      MoveAllStep(trig, before, i, t, target);
      points[i] := q.value;
      i := i + 1;
    }
    assert points[..] == target.0;
    return None;
  }

  /** One step of a level's loop: a point that can be moved is moved, and the loop goes on. */
  lemma MoveAllStep(trig: Trig, ps: seq<Point>, i: nat, transform: string, target: (seq<Point>, Option<Exception>))
    requires i < |ps| && |target.0| == |ps| && TransformPoint(trig, ps[i], transform).Ok?
    requires MoveAll(trig, ps[i..], transform) == (target.0[i..], target.1)
    ensures target.0[i] == TransformPoint(trig, ps[i], transform).value
    ensures MoveAll(trig, ps[i + 1..], transform) == (target.0[i + 1..], target.1)
  {
    assert ps[i..][0] == ps[i] && ps[i..][1..] == ps[i + 1..];
    assert target.0[i..][0] == target.0[i] && target.0[i..][1..] == target.0[i + 1..];
  }

  /** A point that cannot be moved stops the loop: from it on, the points are left as they were. */
  lemma MoveAllStop(trig: Trig, ps: seq<Point>, i: nat, transform: string, target: (seq<Point>, Option<Exception>))
    requires i < |ps| && |target.0| == |ps| && TransformPoint(trig, ps[i], transform).Err?
    requires MoveAll(trig, ps[i..], transform) == (target.0[i..], target.1)
    ensures target.1 == Some(TransformPoint(trig, ps[i], transform).error)
    ensures forall k :: i <= k < |ps| ==> target.0[k] == ps[k]
  {
    assert ps[i..][0] == ps[i];
    forall k | i <= k < |ps|
      ensures target.0[k] == ps[k]
    {
      assert target.0[i..][k - i] == ps[i..][k - i];
    }
  }

  // ---------------------------------------------------------------------------------------------
  // Properties

  /** A level's loop either moves every point or fails on the first one and moves none. */
  lemma {:induction false} MoveAllAllOrNothing(trig: Trig, ps: seq<Point>, transform: string)
    requires ps != []
    ensures MoveAll(trig, ps, transform).1.Some? <==> TransformPoint(trig, ps[0], transform).Err?
    ensures MoveAll(trig, ps, transform).1.Some? ==> MoveAll(trig, ps, transform).0 == ps
    ensures MoveAll(trig, ps, transform).1.None? ==>
      forall i :: 0 <= i < |ps| ==> TransformPoint(trig, ps[i], transform) == Ok(MoveAll(trig, ps, transform).0[i])
    decreases |ps|
  {
    var r := MoveAll(trig, ps, transform);
    if TransformPoint(trig, ps[0], transform).Ok? && |ps| > 1 {
      FailureIndependentOfPoint(trig, ps[0], ps[1], transform);
      MoveAllAllOrNothing(trig, ps[1..], transform);
      var rest := MoveAll(trig, ps[1..], transform);
      forall i | 0 <= i < |ps|
        ensures TransformPoint(trig, ps[i], transform) == Ok(r.0[i])
      {
        if i > 0 {
          assert ps[i] == ps[1..][i - 1];
          assert r.0[i] == rest.0[i - 1];
        }
      }
    }
  }

  /**
   * The array version agrees with the single-point version: it fails exactly when some point
   * does (then it fails for every point), and otherwise slot i ends up holding the image of
   * point i.
   */
  lemma {:induction false} ArrayMatchesPointwise(trig: Trig, ps: seq<Point>, chain: seq<string>)
    requires ps != []
    ensures DocSpacePoints(trig, ps, chain).1.Some? <==> DocSpacePoint(trig, ps[0], chain).Err?
    ensures DocSpacePoints(trig, ps, chain).1.None? ==>
      forall i :: 0 <= i < |ps| ==> DocSpacePoint(trig, ps[i], chain) == Ok(DocSpacePoints(trig, ps, chain).0[i])
    ensures DocSpacePoints(trig, ps, chain).1.Some? ==>
      DocSpacePoints(trig, ps, chain).1 == Some(DocSpacePoint(trig, ps[0], chain).error)
    decreases |chain|
  {
    if chain != [] {
      var t := chain[0];
      if t != "" {
        MoveAllAllOrNothing(trig, ps, t);
        var level := MoveAll(trig, ps, t);
        if level.1.None? {
          ArrayMatchesPointwise(trig, level.0, chain[1..]);
        }
      } else {
        ArrayMatchesPointwise(trig, ps, chain[1..]);
      }
    }
  }

  /** An element none of whose ancestors carries a transform keeps its points where they are. */
  lemma {:induction false} NoTransformIsIdentity(trig: Trig, p: Point, chain: seq<string>)
    requires forall k :: 0 <= k < |chain| ==> chain[k] == ""
    ensures DocSpacePoint(trig, p, chain) == Ok(p)
    decreases |chain|
  {
    if chain != [] {
      NoTransformIsIdentity(trig, p, chain[1..]);
    }
  }

  /**
   * The walk over a chain is the walk over its inner part followed by the walk over its outer
   * part: the element's transform acts before each ancestor's.
   */
  lemma {:induction false} ChainAppend(trig: Trig, p: Point, inner: seq<string>, outer: seq<string>)
    ensures DocSpacePoint(trig, p, inner + outer) ==
      match DocSpacePoint(trig, p, inner)
      case Ok(q) => DocSpacePoint(trig, q, outer)
      case Err(e) => Err(e)
    decreases |inner|
  {
    if inner == [] {
      assert inner + outer == outer;
    } else {
      assert (inner + outer)[0] == inner[0] && (inner + outer)[1..] == inner[1..] + outer;
      var t := inner[0];
      var q := if t != "" then TransformPoint(trig, p, t) else Ok(p);
      if q.Ok? {
        ChainAppend(trig, q.value, inner[1..], outer);
      }
    }
  }

  /** An element with a transform under a parent with one: the element's acts first. */
  lemma ElementThenParent(trig: Trig, p: Point, own: string, parent: string)
    requires own != "" && parent != ""
    ensures DocSpacePoint(trig, p, [own, parent]) ==
      match TransformPoint(trig, p, own)
      case Ok(q) => TransformPoint(trig, q, parent)
      case Err(e) => Err(e)
  {
    var r := TransformPoint(trig, p, own);
    assert [own, parent][1..] == [parent];
    if r.Ok? {
      assert [parent][1..] == [];
      assert DocSpacePoint(trig, r.value, [parent]) ==
        match TransformPoint(trig, r.value, parent)
        case Ok(q) => DocSpacePoint(trig, q, [])
        case Err(e) => Err(e);
    }
  }
}
