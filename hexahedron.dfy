// The hexahedron shape utilities: Grandy's closed-form volume and the
// six-quadrilateral surface that centroid and midpoint hand to the general
// polyhedron kernel. Vertices pt0..pt3 are one quadrilateral, pt4..pt7 the
// opposite one, with pt(i+4) joined to pt(i) by an edge.
module Hexahedron {
  import opened Vector3

  //--------------------------------------------------------------------------
  // Volume
  //--------------------------------------------------------------------------

  /** The sum of the three absolute triple products of Grandy's formula, in terms of the diagonal differences. */
  function GrandyDeterminant(d20: Vec3, d50: Vec3, d61: Vec3, d63: Vec3, d64: Vec3, d70: Vec3): (det: real)
    ensures det >= 0.0
  {
    Abs(TripleProduct(Add(d61, d70), d63, d20)) +
    Abs(TripleProduct(d70, Add(d63, d50), d64)) +
    Abs(TripleProduct(d61, d50, Add(d64, d20)))
  }

  /** Grandy's formula: three absolute triple products of diagonal differences, over 12. */
  function Volume(pt0: Vec3, pt1: Vec3, pt2: Vec3, pt3: Vec3,
                  pt4: Vec3, pt5: Vec3, pt6: Vec3, pt7: Vec3): (v: real)
    ensures v >= 0.0
  {
    GrandyDeterminant(Sub(pt2, pt0), Sub(pt5, pt0), Sub(pt6, pt1),
                      Sub(pt6, pt3), Sub(pt6, pt4), Sub(pt7, pt0)) / 12.0
  }

  /** Only differences of vertices enter the formula, so a rigid translation changes nothing. */
  lemma VolumeTranslationInvariant(pt0: Vec3, pt1: Vec3, pt2: Vec3, pt3: Vec3,
                                   pt4: Vec3, pt5: Vec3, pt6: Vec3, pt7: Vec3, t: Vec3)
    ensures Volume(Add(pt0, t), Add(pt1, t), Add(pt2, t), Add(pt3, t),
                   Add(pt4, t), Add(pt5, t), Add(pt6, t), Add(pt7, t))
         == Volume(pt0, pt1, pt2, pt3, pt4, pt5, pt6, pt7)
  {
    forall p: Vec3, q: Vec3 ensures Sub(Add(p, t), Add(q, t)) == Sub(p, q) { }
  }

  lemma AddScale(k: real, a: Vec3, b: Vec3)
    ensures Add(Scale(k, a), Scale(k, b)) == Scale(k, Add(a, b))
  {
  }

  lemma SubScale(k: real, a: Vec3, b: Vec3)
    ensures Sub(Scale(k, a), Scale(k, b)) == Scale(k, Sub(a, b))
  {
  }

  /** One Grandy term under scaling: |(ka x kb) . kc| == |k^3| |(a x b) . c|. */
  lemma AbsTripleScale(k: real, a: Vec3, b: Vec3, c: Vec3)
    ensures Abs(TripleProduct(Scale(k, a), Scale(k, b), Scale(k, c)))
         == Abs(k * k * k) * Abs(TripleProduct(a, b, c))
  {
    TripleProductScale(k, a, b, c);
    AbsMul(k * k * k, TripleProduct(a, b, c));
  }

  lemma GrandyDeterminantScaling(k: real, d20: Vec3, d50: Vec3, d61: Vec3, d63: Vec3, d64: Vec3, d70: Vec3)
    ensures GrandyDeterminant(Scale(k, d20), Scale(k, d50), Scale(k, d61), Scale(k, d63), Scale(k, d64), Scale(k, d70))
         == Abs(k * k * k) * GrandyDeterminant(d20, d50, d61, d63, d64, d70)
  {
    AddScale(k, d61, d70); AddScale(k, d63, d50); AddScale(k, d64, d20);
    var a1 := Abs(TripleProduct(Add(d61, d70), d63, d20));
    var a2 := Abs(TripleProduct(d70, Add(d63, d50), d64));
    var a3 := Abs(TripleProduct(d61, d50, Add(d64, d20)));
    var b1 := Abs(TripleProduct(Scale(k, Add(d61, d70)), Scale(k, d63), Scale(k, d20)));
    var b2 := Abs(TripleProduct(Scale(k, d70), Scale(k, Add(d63, d50)), Scale(k, d64)));
    var b3 := Abs(TripleProduct(Scale(k, d61), Scale(k, d50), Scale(k, Add(d64, d20))));
    AbsTripleScale(k, Add(d61, d70), d63, d20);
    AbsTripleScale(k, d70, Add(d63, d50), d64);
    AbsTripleScale(k, d61, d50, Add(d64, d20));
    Distribute3(Abs(k * k * k), a1, a2, a3, GrandyDeterminant(d20, d50, d61, d63, d64, d70),
                b1, b2, b3, GrandyDeterminant(Scale(k, d20), Scale(k, d50), Scale(k, d61),
                                              Scale(k, d63), Scale(k, d64), Scale(k, d70)));
  }

  /** If every term of a sum g is scaled by c, giving the terms of h, then h == c * g. */
  lemma Distribute3(c: real, a1: real, a2: real, a3: real, g: real, b1: real, b2: real, b3: real, h: real)
    requires g == a1 + a2 + a3 && h == b1 + b2 + b3
    requires b1 == c * a1 && b2 == c * a2 && b3 == c * a3
    ensures h == c * g
  {
  }

  lemma DivideScaled(c: real, x: real, y: real, v: real)
    requires y == c * x && v == x / 12.0
    ensures y / 12.0 == c * v
  {
  }

  lemma VolumeOfScaled(pt0: Vec3, pt1: Vec3, pt2: Vec3, pt3: Vec3,
                       pt4: Vec3, pt5: Vec3, pt6: Vec3, pt7: Vec3, k: real)
    ensures Volume(Scale(k, pt0), Scale(k, pt1), Scale(k, pt2), Scale(k, pt3),
                   Scale(k, pt4), Scale(k, pt5), Scale(k, pt6), Scale(k, pt7))
         == GrandyDeterminant(Scale(k, Sub(pt2, pt0)), Scale(k, Sub(pt5, pt0)), Scale(k, Sub(pt6, pt1)),
                              Scale(k, Sub(pt6, pt3)), Scale(k, Sub(pt6, pt4)), Scale(k, Sub(pt7, pt0))) / 12.0
  {
    SubScale(k, pt2, pt0); SubScale(k, pt5, pt0); SubScale(k, pt6, pt1);
    SubScale(k, pt6, pt3); SubScale(k, pt6, pt4); SubScale(k, pt7, pt0);
  }

  /** Scaling every vertex by k about the origin multiplies the volume by |k|^3. */
  lemma VolumeScaling(pt0: Vec3, pt1: Vec3, pt2: Vec3, pt3: Vec3,
                      pt4: Vec3, pt5: Vec3, pt6: Vec3, pt7: Vec3, k: real)
    ensures Volume(Scale(k, pt0), Scale(k, pt1), Scale(k, pt2), Scale(k, pt3),
                   Scale(k, pt4), Scale(k, pt5), Scale(k, pt6), Scale(k, pt7))
         == Abs(k * k * k) * Volume(pt0, pt1, pt2, pt3, pt4, pt5, pt6, pt7)
  {
    VolumeOfScaled(pt0, pt1, pt2, pt3, pt4, pt5, pt6, pt7, k);
    GrandyDeterminantScaling(k, Sub(pt2, pt0), Sub(pt5, pt0), Sub(pt6, pt1),
                             Sub(pt6, pt3), Sub(pt6, pt4), Sub(pt7, pt0));
    DivideScaled(Abs(k * k * k),
                 GrandyDeterminant(Sub(pt2, pt0), Sub(pt5, pt0), Sub(pt6, pt1),
                                   Sub(pt6, pt3), Sub(pt6, pt4), Sub(pt7, pt0)),
                 GrandyDeterminant(Scale(k, Sub(pt2, pt0)), Scale(k, Sub(pt5, pt0)), Scale(k, Sub(pt6, pt1)),
                                   Scale(k, Sub(pt6, pt3)), Scale(k, Sub(pt6, pt4)), Scale(k, Sub(pt7, pt0))),
                 Volume(pt0, pt1, pt2, pt3, pt4, pt5, pt6, pt7));
  }

  /** The 2x2 linear-combination determinant the three Grandy terms reduce to. */
  lemma SymmetricTriple(u: Vec3, v: Vec3, w: Vec3)
    ensures TripleProduct(Add(v, w), Add(u, w), Add(u, v)) == 2.0 * TripleProduct(u, v, w)
  {
  }

  /**
   * For a parallelepiped with corner o and edge vectors u, v, w (vertices
   * numbered as in the source), the formula gives |u . (v x w)|: each of the
   * three terms is four times the triple product.
   */
  lemma VolumeParallelepiped(o: Vec3, u: Vec3, v: Vec3, w: Vec3)
    ensures Volume(o, Add(o, u), Add(o, Add(u, v)), Add(o, v),
                   Add(o, w), Add(o, Add(u, w)), Add(o, Add(Add(u, v), w)), Add(o, Add(v, w)))
         == Abs(TripleProduct(u, v, w))
  {
    var pt0, pt1, pt2, pt3 := o, Add(o, u), Add(o, Add(u, v)), Add(o, v);
    var pt4, pt5, pt6, pt7 := Add(o, w), Add(o, Add(u, w)), Add(o, Add(Add(u, v), w)), Add(o, Add(v, w));
    var d20, d50, d61 := Sub(pt2, pt0), Sub(pt5, pt0), Sub(pt6, pt1);
    var d63, d64, d70 := Sub(pt6, pt3), Sub(pt6, pt4), Sub(pt7, pt0);
    assert d20 == Add(u, v) && d64 == Add(u, v);
    assert d50 == Add(u, w) && d63 == Add(u, w);
    assert d61 == Add(v, w) && d70 == Add(v, w);
    var s := TripleProduct(Add(v, w), Add(u, w), Add(u, v));
    SymmetricTriple(u, v, w);
    assert Add(d61, d70) == Scale(2.0, Add(v, w));
    assert Add(d63, d50) == Scale(2.0, Add(u, w));
    assert Add(d64, d20) == Scale(2.0, Add(u, v));
    assert TripleProduct(Scale(2.0, Add(v, w)), Add(u, w), Add(u, v)) == 2.0 * s;
    assert TripleProduct(Add(v, w), Scale(2.0, Add(u, w)), Add(u, v)) == 2.0 * s;
    assert TripleProduct(Add(v, w), Add(u, w), Scale(2.0, Add(u, v))) == 2.0 * s;
    var t := TripleProduct(u, v, w);
    AbsMul(4.0, t);
  }

  /** The unit cube as a parallelepiped: its corners and its (unit) triple product. */
  lemma UnitCubeCorners(o: Vec3, u: Vec3, v: Vec3, w: Vec3)
    requires o == Vec3(0.0, 0.0, 0.0) && u == Vec3(1.0, 0.0, 0.0) && v == Vec3(0.0, 1.0, 0.0) && w == Vec3(0.0, 0.0, 1.0)
    ensures Add(o, u) == Vec3(1.0, 0.0, 0.0) && Add(o, Add(u, v)) == Vec3(1.0, 1.0, 0.0) && Add(o, v) == Vec3(0.0, 1.0, 0.0)
    ensures Add(o, w) == Vec3(0.0, 0.0, 1.0) && Add(o, Add(u, w)) == Vec3(1.0, 0.0, 1.0)
    ensures Add(o, Add(Add(u, v), w)) == Vec3(1.0, 1.0, 1.0) && Add(o, Add(v, w)) == Vec3(0.0, 1.0, 1.0)
    ensures TripleProduct(u, v, w) == 1.0
  {
  }

  /** The unit cube of the source's vertex numbering has volume 1. */
  lemma UnitCubeVolume()
    ensures Volume(Vec3(0.0, 0.0, 0.0), Vec3(1.0, 0.0, 0.0), Vec3(1.0, 1.0, 0.0), Vec3(0.0, 1.0, 0.0),
                   Vec3(0.0, 0.0, 1.0), Vec3(1.0, 0.0, 1.0), Vec3(1.0, 1.0, 1.0), Vec3(0.0, 1.0, 1.0)) == 1.0
  {
    var o, u, v, w := Vec3(0.0, 0.0, 0.0), Vec3(1.0, 0.0, 0.0), Vec3(0.0, 1.0, 0.0), Vec3(0.0, 0.0, 1.0);
    UnitCubeCorners(o, u, v, w);
    VolumeParallelepiped(o, u, v, w);
  }

  //--------------------------------------------------------------------------
  // The six-face surface
  //--------------------------------------------------------------------------

  /** The quadrilateral faces, as vertex indices, in the order they are inserted. */
  const HexFaces: seq<seq<nat>> :=
    [[0, 1, 2, 3], [4, 7, 6, 5], [0, 4, 5, 1], [1, 5, 6, 2], [2, 6, 7, 3], [3, 7, 4, 0]]

  /** The twelve edges of the hexahedron, each listed once with one orientation. */
  const HexEdges: seq<(nat, nat)> :=
    [(0, 1), (1, 2), (2, 3), (3, 0),
     (4, 5), (5, 6), (6, 7), (7, 4),
     (0, 4), (1, 5), (2, 6), (3, 7)]

  /** The directed edges of one face: each vertex to its successor, the last back to the first. */
  function FaceEdges(face: seq<nat>): (es: seq<(nat, nat)>)
    ensures |es| == |face|
    ensures forall i :: 0 <= i < |face| ==> es[i] == (face[i], face[(i + 1) % |face|])
  {
    seq(|face|, i requires 0 <= i < |face| => (face[i], face[(i + 1) % |face|]))
  }

  /** All directed edges of a face list, face by face. */
  function Edges(faces: seq<seq<nat>>): seq<(nat, nat)> {
    if |faces| == 0 then [] else Edges(faces[..|faces| - 1]) + FaceEdges(faces[|faces| - 1])
  }

  /** The number of faces that contain vertex v. */
  function FacesAt(faces: seq<seq<nat>>, v: nat): nat {
    if |faces| == 0 then 0 else FacesAt(faces[..|faces| - 1], v) + (if v in faces[|faces| - 1] then 1 else 0)
  }

  lemma EdgesSnoc(fs: seq<seq<nat>>, f: seq<nat>)
    ensures Edges(fs + [f]) == Edges(fs) + FaceEdges(f)
  {
    assert (fs + [f])[..|fs|] == fs;
  }

  lemma FacesAtSnoc(fs: seq<seq<nat>>, f: seq<nat>, v: nat)
    ensures FacesAt(fs + [f], v) == FacesAt(fs, v) + (if v in f then 1 else 0)
  {
    assert (fs + [f])[..|fs|] == fs;
  }

  lemma EdgesOfSix(f0: seq<nat>, f1: seq<nat>, f2: seq<nat>, f3: seq<nat>, f4: seq<nat>, f5: seq<nat>)
    ensures Edges([f0, f1, f2, f3, f4, f5])
         == FaceEdges(f0) + FaceEdges(f1) + FaceEdges(f2) + FaceEdges(f3) + FaceEdges(f4) + FaceEdges(f5)
  {
    var e: seq<seq<nat>> := [];
    EdgesSnoc(e, f0);
    assert e + [f0] == [f0];
    EdgesSnoc([f0], f1);
    assert [f0] + [f1] == [f0, f1];
    EdgesSnoc([f0, f1], f2);
    assert [f0, f1] + [f2] == [f0, f1, f2];
    EdgesSnoc([f0, f1, f2], f3);
    assert [f0, f1, f2] + [f3] == [f0, f1, f2, f3];
    EdgesSnoc([f0, f1, f2, f3], f4);
    assert [f0, f1, f2, f3] + [f4] == [f0, f1, f2, f3, f4];
    EdgesSnoc([f0, f1, f2, f3, f4], f5);
    assert [f0, f1, f2, f3, f4] + [f5] == [f0, f1, f2, f3, f4, f5];
  }

  lemma FacesAtSix(f0: seq<nat>, f1: seq<nat>, f2: seq<nat>, f3: seq<nat>, f4: seq<nat>, f5: seq<nat>, v: nat)
    ensures FacesAt([f0, f1, f2, f3, f4, f5], v)
         == (if v in f0 then 1 else 0) + (if v in f1 then 1 else 0) + (if v in f2 then 1 else 0)
          + (if v in f3 then 1 else 0) + (if v in f4 then 1 else 0) + (if v in f5 then 1 else 0)
  {
    var e: seq<seq<nat>> := [];
    FacesAtSnoc(e, f0, v);
    assert e + [f0] == [f0];
    FacesAtSnoc([f0], f1, v);
    assert [f0] + [f1] == [f0, f1];
    FacesAtSnoc([f0, f1], f2, v);
    assert [f0, f1] + [f2] == [f0, f1, f2];
    FacesAtSnoc([f0, f1, f2], f3, v);
    assert [f0, f1, f2] + [f3] == [f0, f1, f2, f3];
    FacesAtSnoc([f0, f1, f2, f3], f4, v);
    assert [f0, f1, f2, f3] + [f4] == [f0, f1, f2, f3, f4];
    FacesAtSnoc([f0, f1, f2, f3, f4], f5, v);
    assert [f0, f1, f2, f3, f4] + [f5] == [f0, f1, f2, f3, f4, f5];
  }

  lemma QuadEdges(a: nat, b: nat, c: nat, d: nat)
    ensures FaceEdges([a, b, c, d]) == [(a, b), (b, c), (c, d), (d, a)]
  {
  }

  lemma {:induction false} HexEdgeList()
    ensures Edges(HexFaces) ==
      [(0, 1), (1, 2), (2, 3), (3, 0),
       (4, 7), (7, 6), (6, 5), (5, 4),
       (0, 4), (4, 5), (5, 1), (1, 0),
       (1, 5), (5, 6), (6, 2), (2, 1),
       (2, 6), (6, 7), (7, 3), (3, 2),
       (3, 7), (7, 4), (4, 0), (0, 3)]
  {
    EdgesOfSix([0, 1, 2, 3], [4, 7, 6, 5], [0, 4, 5, 1], [1, 5, 6, 2], [2, 6, 7, 3], [3, 7, 4, 0]);
    QuadEdges(0, 1, 2, 3); QuadEdges(4, 7, 6, 5); QuadEdges(0, 4, 5, 1);
    QuadEdges(1, 5, 6, 2); QuadEdges(2, 6, 7, 3); QuadEdges(3, 7, 4, 0);
  }

  /** How many times x occurs in s. */
  function Count<T(==)>(s: seq<T>, x: T): nat {
    if |s| == 0 then 0 else (if s[0] == x then 1 else 0) + Count(s[1..], x)
  }

  lemma {:induction false} CountAppend<T>(a: seq<T>, b: seq<T>, x: T)
    ensures Count(a + b, x) == Count(a, x) + Count(b, x)
  {
    if |a| > 0 {
      assert (a + b)[1..] == a[1..] + b;
      CountAppend(a[1..], b, x);
    } else {
      assert a + b == b;
    }
  }

  lemma CountQuad<T>(p: T, q: T, r: T, t: T, x: T)
    ensures Count([p, q, r, t], x)
         == (if p == x then 1 else 0) + (if q == x then 1 else 0) + (if r == x then 1 else 0) + (if t == x then 1 else 0)
  {
    var z := [t][1..];
    assert |z| == 0;
    assert Count([t], x) == (if t == x then 1 else 0);
    assert [r, t][1..] == [t];
    assert Count([r, t], x) == (if r == x then 1 else 0) + Count([t], x);
    assert [q, r, t][1..] == [r, t];
    assert Count([q, r, t], x) == (if q == x then 1 else 0) + Count([r, t], x);
    assert [p, q, r, t][1..] == [q, r, t];
  }

  /** The traversals of a directed edge by one quadrilateral face. */
  lemma QuadCount(a: nat, b: nat, c: nat, d: nat, x: (nat, nat))
    ensures Count(FaceEdges([a, b, c, d]), x)
         == (if (a, b) == x then 1 else 0) + (if (b, c) == x then 1 else 0)
          + (if (c, d) == x then 1 else 0) + (if (d, a) == x then 1 else 0)
  {
    QuadEdges(a, b, c, d);
    CountQuad((a, b), (b, c), (c, d), (d, a), x);
  }

  /** The traversals of a directed edge by the whole surface, face by face. */
  lemma {:induction false} HexEdgeCount(x: (nat, nat))
    ensures Count(Edges(HexFaces), x)
         == Count(FaceEdges([0, 1, 2, 3]), x) + Count(FaceEdges([4, 7, 6, 5]), x)
          + Count(FaceEdges([0, 4, 5, 1]), x) + Count(FaceEdges([1, 5, 6, 2]), x)
          + Count(FaceEdges([2, 6, 7, 3]), x) + Count(FaceEdges([3, 7, 4, 0]), x)
  {
    var q0, q1, q2 := FaceEdges([0, 1, 2, 3]), FaceEdges([4, 7, 6, 5]), FaceEdges([0, 4, 5, 1]);
    var q3, q4, q5 := FaceEdges([1, 5, 6, 2]), FaceEdges([2, 6, 7, 3]), FaceEdges([3, 7, 4, 0]);
    EdgesOfSix([0, 1, 2, 3], [4, 7, 6, 5], [0, 4, 5, 1], [1, 5, 6, 2], [2, 6, 7, 3], [3, 7, 4, 0]);
    CountAppend(q0 + q1 + q2 + q3 + q4, q5, x);
    CountAppend(q0 + q1 + q2 + q3, q4, x);
    CountAppend(q0 + q1 + q2, q3, x);
    CountAppend(q0 + q1, q2, x);
    CountAppend(q0, q1, x);
  }

  /** The traversals of a directed edge by the whole surface, as 24 comparisons. */
  lemma EdgeTraversals(x: (nat, nat))
    ensures Count(Edges(HexFaces), x)
         == (if (0, 1) == x then 1 else 0) + (if (1, 2) == x then 1 else 0) + (if (2, 3) == x then 1 else 0) + (if (3, 0) == x then 1 else 0)
          + (if (4, 7) == x then 1 else 0) + (if (7, 6) == x then 1 else 0) + (if (6, 5) == x then 1 else 0) + (if (5, 4) == x then 1 else 0)
          + (if (0, 4) == x then 1 else 0) + (if (4, 5) == x then 1 else 0) + (if (5, 1) == x then 1 else 0) + (if (1, 0) == x then 1 else 0)
          + (if (1, 5) == x then 1 else 0) + (if (5, 6) == x then 1 else 0) + (if (6, 2) == x then 1 else 0) + (if (2, 1) == x then 1 else 0)
          + (if (2, 6) == x then 1 else 0) + (if (6, 7) == x then 1 else 0) + (if (7, 3) == x then 1 else 0) + (if (3, 2) == x then 1 else 0)
          + (if (3, 7) == x then 1 else 0) + (if (7, 4) == x then 1 else 0) + (if (4, 0) == x then 1 else 0) + (if (0, 3) == x then 1 else 0)
  {
    HexEdgeCount(x);
    QuadCount(0, 1, 2, 3, x); QuadCount(4, 7, 6, 5, x); QuadCount(0, 4, 5, 1, x);
    QuadCount(1, 5, 6, 2, x); QuadCount(2, 6, 7, 3, x); QuadCount(3, 7, 4, 0, x);
  }

  /**
   * The surface is closed and consistently wound: each of the twelve edges is
   * traversed exactly once in each direction.
   */
  lemma {:induction false} HexSurfaceClosed()
    ensures forall e :: e in HexEdges ==> Count(Edges(HexFaces), e) == 1 && Count(Edges(HexFaces), (e.1, e.0)) == 1
  {
    forall e | e in HexEdges
      ensures Count(Edges(HexFaces), e) == 1 && Count(Edges(HexFaces), (e.1, e.0)) == 1
    {
      EdgeTraversals(e);
      EdgeTraversals((e.1, e.0));
    }
  }

  /** Nothing but the twelve edges is traversed. */
  lemma {:induction false} HexSurfaceEdgesOnly()
    ensures forall e :: e in Edges(HexFaces) ==> e in HexEdges || (e.1, e.0) in HexEdges
  {
    HexEdgeList();
  }

  /** Every vertex is a corner of exactly three faces. */
  lemma {:induction false} HexVertexValence()
    ensures forall v: nat :: v < 8 ==> FacesAt(HexFaces, v) == 3
  {
    forall v: nat | v < 8 ensures FacesAt(HexFaces, v) == 3 {
      FacesAtSix([0, 1, 2, 3], [4, 7, 6, 5], [0, 4, 5, 1], [1, 5, 6, 2], [2, 6, 7, 3], [3, 7, 4, 0], v);
    }
  }

  /** The points of a face, looked up by index. */
  function FacePoints(face: seq<nat>, pts: seq<Vec3>): (ps: seq<Vec3>)
    requires forall i :: 0 <= i < |face| ==> face[i] < |pts|
    ensures |ps| == |face|
    ensures forall i :: 0 <= i < |face| ==> ps[i] == pts[face[i]]
  {
    seq(|face|, i requires 0 <= i < |face| => pts[face[i]])
  }

  /** The surface of the hexahedron pt0..pt7 as point faces, following HexFaces. */
  function Surface(pt0: Vec3, pt1: Vec3, pt2: Vec3, pt3: Vec3,
                   pt4: Vec3, pt5: Vec3, pt6: Vec3, pt7: Vec3): (s: seq<seq<Vec3>>)
    ensures |s| == 6
  {
    var pts := [pt0, pt1, pt2, pt3, pt4, pt5, pt6, pt7];
    seq(6, i requires 0 <= i < 6 => FacePoints(HexFaces[i], pts))
  }

  /** The surface written out face by face, exactly as the six inserts build it. */
  lemma SurfaceFaces(pt0: Vec3, pt1: Vec3, pt2: Vec3, pt3: Vec3,
                     pt4: Vec3, pt5: Vec3, pt6: Vec3, pt7: Vec3)
    ensures Surface(pt0, pt1, pt2, pt3, pt4, pt5, pt6, pt7)
         == [[pt0, pt1, pt2, pt3], [pt4, pt7, pt6, pt5], [pt0, pt4, pt5, pt1],
             [pt1, pt5, pt6, pt2], [pt2, pt6, pt7, pt3], [pt3, pt7, pt4, pt0]]
  {
    var pts := [pt0, pt1, pt2, pt3, pt4, pt5, pt6, pt7];
    var s := Surface(pt0, pt1, pt2, pt3, pt4, pt5, pt6, pt7);
    assert s[0] == FacePoints([0, 1, 2, 3], pts) == [pt0, pt1, pt2, pt3];
    assert s[1] == FacePoints([4, 7, 6, 5], pts) == [pt4, pt7, pt6, pt5];
    assert s[2] == FacePoints([0, 4, 5, 1], pts) == [pt0, pt4, pt5, pt1];
    assert s[3] == FacePoints([1, 5, 6, 2], pts) == [pt1, pt5, pt6, pt2];
    assert s[4] == FacePoints([2, 6, 7, 3], pts) == [pt2, pt6, pt7, pt3];
    assert s[5] == FacePoints([3, 7, 4, 0], pts) == [pt3, pt7, pt4, pt0];
  }

  /** The general polyhedron, only as far as it is built here: an ordered face list. */
  class Polyhedron {
    var faces: seq<seq<Vec3>>

    constructor ()
      ensures faces == []
    {
      faces := [];
    }

    /** Appends one face; no check that the faces close a volume. */
    method Insert(face: seq<Vec3>)
      modifies this
      ensures faces == old(faces) + [face]
    {
      faces := faces + [face];
    }
  }

  /** The polyhedron whose centroid is the hexahedron's centroid. */
  method CentroidPolyhedron(pt0: Vec3, pt1: Vec3, pt2: Vec3, pt3: Vec3,
                            pt4: Vec3, pt5: Vec3, pt6: Vec3, pt7: Vec3) returns (poly: Polyhedron)
    ensures fresh(poly)
    ensures poly.faces == Surface(pt0, pt1, pt2, pt3, pt4, pt5, pt6, pt7)
  {
    poly := new Polyhedron();
    poly.Insert([pt0, pt1, pt2, pt3]);
    poly.Insert([pt4, pt7, pt6, pt5]);
    poly.Insert([pt0, pt4, pt5, pt1]);
    poly.Insert([pt1, pt5, pt6, pt2]);
    poly.Insert([pt2, pt6, pt7, pt3]);
    poly.Insert([pt3, pt7, pt4, pt0]);
    SurfaceFaces(pt0, pt1, pt2, pt3, pt4, pt5, pt6, pt7);
  }

  /** The polyhedron whose midpoint is the hexahedron's midpoint. */
  method MidpointPolyhedron(pt0: Vec3, pt1: Vec3, pt2: Vec3, pt3: Vec3,
                            pt4: Vec3, pt5: Vec3, pt6: Vec3, pt7: Vec3) returns (poly: Polyhedron)
    ensures fresh(poly)
    ensures poly.faces == Surface(pt0, pt1, pt2, pt3, pt4, pt5, pt6, pt7)
  {
    poly := new Polyhedron();
    poly.Insert([pt0, pt1, pt2, pt3]);
    poly.Insert([pt4, pt7, pt6, pt5]);
    poly.Insert([pt0, pt4, pt5, pt1]);
    poly.Insert([pt1, pt5, pt6, pt2]);
    poly.Insert([pt2, pt6, pt7, pt3]);
    poly.Insert([pt3, pt7, pt4, pt0]);
    SurfaceFaces(pt0, pt1, pt2, pt3, pt4, pt5, pt6, pt7);
  }
}
