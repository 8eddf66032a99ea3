/**
 Unprojecting depth pixels and colouring the points (rgbd/rgbd.cpp), over exact reals.
 A matrix is its four columns, as in the source's column-major storage; a point stands
 for three consecutive floats of an output vector and a colour for three bytes.
 */
module Rgbd {
  import opened Options

  // ---------------------------------------------------------------- linear algebra

  datatype Vec = Vec(x: real, y: real, z: real, w: real)

  datatype Mat = Mat(c0: Vec, c1: Vec, c2: Vec, c3: Vec)

  const IDENTITY := Mat(Vec(1.0, 0.0, 0.0, 0.0), Vec(0.0, 1.0, 0.0, 0.0),
                        Vec(0.0, 0.0, 1.0, 0.0), Vec(0.0, 0.0, 0.0, 1.0))

  function Add(u: Vec, v: Vec): Vec { Vec(u.x + v.x, u.y + v.y, u.z + v.z, u.w + v.w) }

  function Scale(s: real, v: Vec): Vec { Vec(s * v.x, s * v.y, s * v.z, s * v.w) }

  function Apply(m: Mat, v: Vec): Vec {
    Add(Add(Scale(v.x, m.c0), Scale(v.y, m.c1)), Add(Scale(v.z, m.c2), Scale(v.w, m.c3)))
  }

  function Mul(m: Mat, n: Mat): Mat {
    Mat(Apply(m, n.c0), Apply(m, n.c1), Apply(m, n.c2), Apply(m, n.c3))
  }

  /** What Eigen's inverse() gives, over exact reals. */
  ghost predicate Inverses(p: Mat, q: Mat) {
    Mul(p, q) == IDENTITY && Mul(q, p) == IDENTITY
  }

  lemma Distribute(a: real, b: real, c: real)
    ensures (a + b) * c == a * c + b * c && c * (a + b) == c * a + c * b
  {
  }

  lemma Associate(a: real, b: real, c: real)
    ensures (a * b) * c == a * (b * c)
  {
  }

  lemma ScaleOfSum(s: real, u: Vec, v: Vec)
    ensures Scale(s, Add(u, v)) == Add(Scale(s, u), Scale(s, v))
  {
    Distribute(u.x, v.x, s);
    Distribute(u.y, v.y, s);
    Distribute(u.z, v.z, s);
    Distribute(u.w, v.w, s);
  }

  lemma SumOfScales(s: real, t: real, v: Vec)
    ensures Scale(s + t, v) == Add(Scale(s, v), Scale(t, v))
  {
    Distribute(s, t, v.x);
    Distribute(s, t, v.y);
    Distribute(s, t, v.z);
    Distribute(s, t, v.w);
  }

  lemma ScaleOfScale(s: real, t: real, v: Vec)
    ensures Scale(s, Scale(t, v)) == Scale(s * t, v)
  {
    Associate(s, t, v.x);
    Associate(s, t, v.y);
    Associate(s, t, v.z);
    Associate(s, t, v.w);
  }

  lemma AddRearranges(a: Vec, b: Vec, c: Vec, d: Vec, e: Vec, f: Vec, g: Vec, h: Vec)
    ensures Add(Add(Add(a, b), Add(c, d)), Add(Add(e, f), Add(g, h))) ==
            Add(Add(Add(a, e), Add(b, f)), Add(Add(c, g), Add(d, h)))
  {
  }

  lemma ApplyOfSum(m: Mat, u: Vec, v: Vec)
    ensures Apply(m, Add(u, v)) == Add(Apply(m, u), Apply(m, v))
  {
    hide Scale;
    SumOfScales(u.x, v.x, m.c0);
    SumOfScales(u.y, v.y, m.c1);
    SumOfScales(u.z, v.z, m.c2);
    SumOfScales(u.w, v.w, m.c3);
    AddRearranges(Scale(u.x, m.c0), Scale(u.y, m.c1), Scale(u.z, m.c2), Scale(u.w, m.c3),
                  Scale(v.x, m.c0), Scale(v.y, m.c1), Scale(v.z, m.c2), Scale(v.w, m.c3));
  }

  lemma ScaleOfFour(s: real, a: Vec, b: Vec, c: Vec, d: Vec)
    ensures Scale(s, Add(Add(a, b), Add(c, d))) == Add(Add(Scale(s, a), Scale(s, b)), Add(Scale(s, c), Scale(s, d)))
  {
    hide Scale, Add;
    ScaleOfSum(s, Add(a, b), Add(c, d));
    ScaleOfSum(s, a, b);
    ScaleOfSum(s, c, d);
  }

  lemma ScaleParts(s: real, v: Vec)
    ensures
      var r := Scale(s, v);
      r.x == s * v.x && r.y == s * v.y && r.z == s * v.z && r.w == s * v.w
  {
  }

  lemma ApplyOfScale(m: Mat, s: real, v: Vec)
    ensures Apply(m, Scale(s, v)) == Scale(s, Apply(m, v))
  {
    hide Scale, Add;
    ScaleOfFour(s, Scale(v.x, m.c0), Scale(v.y, m.c1), Scale(v.z, m.c2), Scale(v.w, m.c3));
    ScaleOfScale(s, v.x, m.c0);
    ScaleOfScale(s, v.y, m.c1);
    ScaleOfScale(s, v.z, m.c2);
    ScaleOfScale(s, v.w, m.c3);
    ScaleParts(s, v);
  }

  lemma ApplyOfFour(m: Mat, a: Vec, b: Vec, c: Vec, d: Vec)
    ensures Apply(m, Add(Add(a, b), Add(c, d))) == Add(Add(Apply(m, a), Apply(m, b)), Add(Apply(m, c), Apply(m, d)))
  {
    hide Apply, Add;
    ApplyOfSum(m, Add(a, b), Add(c, d));
    ApplyOfSum(m, a, b);
    ApplyOfSum(m, c, d);
  }

  /** The product of two matrices acts as one after the other. */
  lemma ApplyOfMul(m: Mat, n: Mat, v: Vec)
    ensures Apply(Mul(m, n), v) == Apply(m, Apply(n, v))
  {
    hide Scale, Add;
    ApplyOfFour(m, Scale(v.x, n.c0), Scale(v.y, n.c1), Scale(v.z, n.c2), Scale(v.w, n.c3));
    ApplyOfScale(m, v.x, n.c0);
    ApplyOfScale(m, v.y, n.c1);
    ApplyOfScale(m, v.z, n.c2);
    ApplyOfScale(m, v.w, n.c3);
  }

  lemma ApplyIdentity(v: Vec)
    ensures Apply(IDENTITY, v) == v
  {
  }

  lemma ScaleByUnits(v: Vec)
    ensures Scale(1.0, v) == v && Scale(0.0, v) == Vec(0.0, 0.0, 0.0, 0.0)
  {
  }

  lemma MulIdentity(m: Mat)
    ensures Mul(m, IDENTITY) == m
  {
    hide Scale;
    ScaleByUnits(m.c0);
    ScaleByUnits(m.c1);
    ScaleByUnits(m.c2);
    ScaleByUnits(m.c3);
  }

  lemma InverseUndoes(p: Mat, q: Mat, v: Vec)
    requires Inverses(p, q)
    ensures Apply(p, Apply(q, v)) == v && Apply(q, Apply(p, v)) == v
  {
    hide Apply, Mul;
    ApplyOfMul(p, q, v);
    ApplyOfMul(q, p, v);
    ApplyIdentity(v);
  }

  // ---------------------------------------------------------------- one pixel

  const EPSILON := 0.00000001

  function Abs(r: real): real { if r < 0.0 then -r else r }

  datatype Point = Point(x: real, y: real, z: real) {
    function Homogeneous(): Vec { Vec(x, y, z, 1.0) }
  }

  /** Rows of invP [ix, iy, lambda, 1], less the part in lambda. */
  function Fixed(q: Mat, ix: real, iy: real): Vec {
    Vec(q.c0.x * ix + q.c1.x * iy + q.c3.x, q.c0.y * ix + q.c1.y * iy + q.c3.y,
        q.c0.z * ix + q.c1.z * iy + q.c3.z, q.c0.w * ix + q.c1.w * iy + q.c3.w)
  }

  function Denominator(q: Mat, z: real): real { q.c2.z - z * q.c2.w }

  function Lambda(q: Mat, a: Vec, z: real): real
    requires Denominator(q, z) != 0.0
  {
    (z * a.w - a.z) / Denominator(q, z)
  }

  function Row(fixed: real, slope: real, lambda: real): real { fixed + slope * lambda }

  /** None where a check of the source fails and the program stops. */
  function XyFromDepth(q: Mat, ix: real, iy: real, z: real): Option<(real, real)> {
    if Abs(Denominator(q, z)) <= EPSILON then None
    else
      var a := Fixed(q, ix, iy);
      var lambda := Lambda(q, a, z);
      var tau := Row(a.w, q.c2.w, lambda);
      if Abs(tau) <= EPSILON then None
      else Some((Row(a.x, q.c2.x, lambda) / tau, Row(a.y, q.c2.y, lambda) / tau))
  }

  /** The image coordinates of a point, where it has them. */
  function Project(m: Mat, p: Point): Option<(real, real)> {
    var v := Apply(m, p.Homogeneous());
    if v.w == 0.0 then None else Some((v.x / v.w, v.y / v.w))
  }

  lemma Quotient(a: real, b: real)
    requires b != 0.0
    ensures b * (a / b) == a
  {
  }

  lemma SameQuotient(a: real, b: real, c: real)
    requires b != 0.0 && a == b * c
    ensures a / b == c
  {
  }

  /** lambda is the one solution of the third row. */
  lemma LambdaSolves(a3: real, b3: real, a4: real, b4: real, z: real, l: real)
    requires b3 - z * b4 != 0.0
    ensures Row(a3, b3, l) == z * Row(a4, b4, l) <==> l == (z * a4 - a3) / (b3 - z * b4)
  {
    var d := b3 - z * b4;
    assert d * l == b3 * l - z * (b4 * l) by {
      Distribute(b3, -(z * b4), l);
      Associate(z, b4, l);
    }
    Distribute(a4, b4 * l, z);
    Quotient(z * a4 - a3, d);
    if d * l == z * a4 - a3 {
      SameQuotient(z * a4 - a3, d, l);
    }
  }

  lemma RowOfRay(a: real, b: real, c: real, d: real, ix: real, iy: real, l: real)
    ensures (ix * a + iy * b) + (l * c + 1.0 * d) == Row(a * ix + b * iy + d, c, l)
  {
  }

  lemma RowsOfRay(q: Mat, ix: real, iy: real, l: real)
    ensures
      var a := Fixed(q, ix, iy);
      Apply(q, Vec(ix, iy, l, 1.0)) ==
      Vec(Row(a.x, q.c2.x, l), Row(a.y, q.c2.y, l), Row(a.z, q.c2.z, l), Row(a.w, q.c2.w, l))
  {
    RowOfRay(q.c0.x, q.c1.x, q.c2.x, q.c3.x, ix, iy, l);
    RowOfRay(q.c0.y, q.c1.y, q.c2.y, q.c3.y, ix, iy, l);
    RowOfRay(q.c0.z, q.c1.z, q.c2.z, q.c3.z, ix, iy, l);
    RowOfRay(q.c0.w, q.c1.w, q.c2.w, q.c3.w, ix, iy, l);
  }

  /** The returned point lies, up to a factor, on the ray of the pixel. */
  lemma ReturnedPointIsOnRay(q: Mat, ix: real, iy: real, z: real) returns (l: real, tau: real)
    requires XyFromDepth(q, ix, iy, z).Some?
    ensures
      var xy := XyFromDepth(q, ix, iy, z).value;
      tau != 0.0 && Apply(q, Vec(ix, iy, l, 1.0)) == Scale(tau, Vec(xy.0, xy.1, z, 1.0))
  {
    hide Apply, Fixed, Row;
    var a := Fixed(q, ix, iy);
    l := Lambda(q, a, z);
    tau := Row(a.w, q.c2.w, l);
    LambdaSolves(a.z, q.c2.z, a.w, q.c2.w, z, l);
    RowsOfRay(q, ix, iy, l);
    Quotient(Row(a.x, q.c2.x, l), tau);
    Quotient(Row(a.y, q.c2.y, l), tau);
  }

  lemma ScaledProjects(tau: real, u: Vec, ix: real, iy: real, l: real)
    requires tau != 0.0 && Scale(tau, u) == Vec(ix, iy, l, 1.0)
    ensures u.w != 0.0 && u.x / u.w == ix && u.y / u.w == iy
  {
    var w := u.w;
    assert tau * w == 1.0;
    assert ix == tau * u.x && iy == tau * u.y;
    Inverted(tau, w, u.x);
    Inverted(tau, w, u.y);
    SameQuotient(u.x, w, ix);
    SameQuotient(u.y, w, iy);
  }

  lemma Inverted(t: real, w: real, a: real)
    requires t * w == 1.0
    ensures w != 0.0 && a == w * (t * a)
  {
    Associate(w, t, a);
  }

  /** Unprojecting a pixel at any depth and projecting back gives that pixel. */
  lemma UnprojectThenProject(p: Mat, q: Mat, ix: real, iy: real, z: real)
    requires Inverses(p, q)
    requires XyFromDepth(q, ix, iy, z).Some?
    ensures
      var xy := XyFromDepth(q, ix, iy, z).value;
      Project(p, Point(xy.0, xy.1, z)) == Some((ix, iy))
  {
    hide Apply, Scale, Inverses, XyFromDepth;
    var xy := XyFromDepth(q, ix, iy, z).value;
    var l, tau := ReturnedPointIsOnRay(q, ix, iy, z);
    var ray, found := Vec(ix, iy, l, 1.0), Vec(xy.0, xy.1, z, 1.0);
    InverseUndoes(p, q, ray);
    ApplyOfScale(p, tau, found);
    ScaledProjects(tau, Apply(p, found), ix, iy, l);
  }

  /** The numbers xy_from_depth computes from the image of a point: its own. */
  lemma ImageSolvesRows(q: Mat, p: Point, t: real, ix: real, iy: real, l: real)
    requires t != 0.0 && Apply(q, Vec(ix, iy, l, 1.0)) == Scale(t, p.Homogeneous())
    ensures
      XyFromDepth(q, ix, iy, p.z) ==
      if Abs(Denominator(q, p.z)) <= EPSILON || Abs(t) <= EPSILON then None
      else Some((p.x, p.y))
  {
    hide Apply, Fixed, Scale, Row;
    var a := Fixed(q, ix, iy);
    RowsOfRay(q, ix, iy, l);
    ScaleParts(t, p.Homogeneous());
    assert Row(a.w, q.c2.w, l) == t;
    if Abs(Denominator(q, p.z)) > EPSILON {
      LambdaSolves(a.z, q.c2.z, a.w, q.c2.w, p.z, l);
      assert Lambda(q, a, p.z) == l;
      SameQuotient(Row(a.x, q.c2.x, l), t, p.x);
      SameQuotient(Row(a.y, q.c2.y, l), t, p.y);
    }
  }

  lemma PointIsOnItsRay(p: Mat, q: Mat, point: Point)
    requires Inverses(p, q)
    requires Apply(p, point.Homogeneous()).w != 0.0
    ensures
      var v := Apply(p, point.Homogeneous());
      Apply(q, Vec(v.x / v.w, v.y / v.w, v.z / v.w, 1.0)) == Scale(1.0 / v.w, point.Homogeneous())
  {
    hide Apply, Inverses;
    var v := Apply(p, point.Homogeneous());
    var t := 1.0 / v.w;
    InverseUndoes(p, q, point.Homogeneous());
    ApplyOfScale(q, t, v);
    Reciprocal(v.x, v.w);
    Reciprocal(v.y, v.w);
    Reciprocal(v.z, v.w);
    Reciprocal(v.w, v.w);
    SameQuotient(v.w, v.w, 1.0);
    assert Scale(t, v) == Vec(v.x / v.w, v.y / v.w, v.z / v.w, 1.0);
  }

  lemma Reciprocal(a: real, b: real)
    requires b != 0.0
    ensures (1.0 / b) * a == a / b
  {
    Quotient(1.0, b);
    Associate(b, 1.0 / b, a);
    SameQuotient(a, b, (1.0 / b) * a);
  }

  /** Projecting a point and unprojecting its image at its own depth recovers it exactly
      when neither check fails: otherwise the program stops, never with another answer. */
  lemma ProjectThenUnproject(p: Mat, q: Mat, point: Point)
    requires Inverses(p, q)
    requires Project(p, point).Some?
    ensures
      var w, i := Apply(p, point.Homogeneous()).w, Project(p, point).value;
      XyFromDepth(q, i.0, i.1, point.z) ==
      if Abs(Denominator(q, point.z)) <= 0.00000001 || Abs(1.0 / w) <= 0.00000001 then None
      else Some((point.x, point.y))
  {
    hide Apply, Inverses, Scale, XyFromDepth, Denominator;
    var v := Apply(p, point.Homogeneous());
    PointIsOnItsRay(p, q, point);
    Quotient(1.0, v.w);
    ImageSolvesRows(q, point, 1.0 / v.w, v.x / v.w, v.y / v.w, v.z / v.w);
  }

  // ---------------------------------------------------------------- the depth image

  datatype DepthImage = DepthImage(width: nat, height: nat, scale: real, depth: seq<nat>, imageCamera: Mat) {
    /** The arrays a caller hands over have one entry for each pixel. */
    ghost predicate Valid() { |depth| == width * height }

    function DepthOf(zi: nat): real { zi as real * scale }
  }

  datatype DepthOptions = DepthOptions(removeZeros: bool, minDepth: Option<real>, maxDepth: Option<real>)

  const ZERO := Point(0.0, 0.0, 0.0)

  /** Whether a pixel of depth zi gives a point. */
  predicate Emits(image: DepthImage, options: DepthOptions, zi: nat) {
    if zi == 0 then !options.removeZeros
    else
      var z := image.DepthOf(zi);
      && !(options.minDepth.Some? && z < options.minDepth.value)
      && !(options.maxDepth.Some? && z > options.maxDepth.value)
  }

  /** The point of pixel (x, y), None where a check fails. */
  function PixelPoint(image: DepthImage, q: Mat, zi: nat, x: nat, y: nat): Option<Point> {
    if zi == 0 then Some(ZERO)
    else
      var z := image.DepthOf(zi);
      match XyFromDepth(q, x as real + 0.5, y as real + 0.5, z)
      case Some(xy) => Some(Point(xy.0, xy.1, z))
      case None => None
  }

  /** The first n pixels, in row-major order, that give a point. */
  ghost function Emitting(image: DepthImage, options: DepthOptions, n: nat): (idxs: seq<nat>)
    requires n <= |image.depth|
    ensures forall i :: 0 <= i < |idxs| ==> idxs[i] < n && Emits(image, options, image.depth[idxs[i]])
    ensures forall i, j :: 0 <= i < j < |idxs| ==> idxs[i] < idxs[j]
    ensures forall k :: 0 <= k < n && Emits(image, options, image.depth[k]) ==> k in idxs
  {
    if n == 0 then []
    else
      Emitting(image, options, n - 1) + if Emits(image, options, image.depth[n - 1]) then [n - 1] else []
  }

  lemma EmitsIff(image: DepthImage, options: DepthOptions, zi: nat)
    ensures Emits(image, options, zi) <==>
            if zi == 0 then !options.removeZeros
            else
              && (options.minDepth.Some? ==> options.minDepth.value <= zi as real * image.scale)
              && (options.maxDepth.Some? ==> zi as real * image.scale <= options.maxDepth.value)
  {
  }

  /** They are those whose depth, in metres, is within the limits given, and those without
      a depth if they are wanted. */
  lemma EmittingIff(image: DepthImage, options: DepthOptions, n: nat, k: nat)
    requires k < n <= |image.depth|
    ensures
      var zi := image.depth[k];
      k in Emitting(image, options, n) <==>
      if zi == 0 then !options.removeZeros
      else
        && (options.minDepth.Some? ==> options.minDepth.value <= zi as real * image.scale)
        && (options.maxDepth.Some? ==> zi as real * image.scale <= options.maxDepth.value)
  {
    hide Emits;
    EmitsIff(image, options, image.depth[k]);
  }

  /** Those pixels' points, None if a check fails at one of them. */
  ghost function Points(image: DepthImage, options: DepthOptions, q: Mat, n: nat): Option<seq<Point>>
    requires n <= |image.depth| && image.Valid()
  {
    if n == 0 then Some([])
    else
      var width := image.width;
      assert width > 0;
      match Points(image, options, q, n - 1)
      case None => None
      case Some(points) =>
        if !Emits(image, options, image.depth[n - 1]) then Some(points)
        else
          match PixelPoint(image, q, image.depth[n - 1], (n - 1) % width, (n - 1) / width)
          case None => None
          case Some(point) => Some(points + [point])
  }

  /** The point of pixel k: at its depth in metres, unprojected from the pixel's centre; the
      origin for a pixel without a depth. */
  ghost predicate IsPointOf(image: DepthImage, q: Mat, k: nat, point: Point)
    requires k < |image.depth| && image.width > 0
  {
    var zi := image.depth[k];
    if zi == 0 then point == Point(0.0, 0.0, 0.0)
    else
      && point.z == zi as real * image.scale
      && XyFromDepth(q, (k % image.width) as real + 0.5, (k / image.width) as real + 0.5, point.z)
         == Some((point.x, point.y))
  }

  lemma {:induction false} PointsAreThePixels(image: DepthImage, options: DepthOptions, q: Mat, n: nat)
    requires n <= |image.depth| && image.Valid() && Points(image, options, q, n).Some?
    ensures
      var points, idxs := Points(image, options, q, n).value, Emitting(image, options, n);
      |points| == |idxs| &&
      forall i :: 0 <= i < |idxs| ==> image.width > 0 && IsPointOf(image, q, idxs[i], points[i])
  {
    hide Emits, PixelPoint, IsPointOf;
    if n > 0 {
      PointsAreThePixels(image, options, q, n - 1);
      if Emits(image, options, image.depth[n - 1]) {
        PixelPointIsPoint(image, q, n - 1);
      }
    }
  }

  /** A check fails when pixel k, which is wanted and has a depth, is unprojected. */
  ghost predicate StopsAt(image: DepthImage, options: DepthOptions, q: Mat, k: nat)
    requires k < |image.depth| && image.width > 0
  {
    && Emits(image, options, image.depth[k]) && image.depth[k] != 0
    && XyFromDepth(q, (k % image.width) as real + 0.5, (k / image.width) as real + 0.5,
                   image.DepthOf(image.depth[k])).None?
  }

  lemma PixelStopsIff(image: DepthImage, options: DepthOptions, q: Mat, k: nat)
    requires k < |image.depth| && image.width > 0
    ensures StopsAt(image, options, q, k) <==>
            && Emits(image, options, image.depth[k])
            && PixelPoint(image, q, image.depth[k], k % image.width, k / image.width).None?
  {
    hide XyFromDepth;
  }

  /** The program stops exactly when a check fails at one of those pixels. */
  lemma {:induction false} PointsStopIff(image: DepthImage, options: DepthOptions, q: Mat, n: nat)
    requires n <= |image.depth| && image.Valid() && image.width > 0
    ensures Points(image, options, q, n).None? <==> exists k :: 0 <= k < n && StopsAt(image, options, q, k)
  {
    hide Emits, PixelPoint, StopsAt;
    if n > 0 {
      PointsStopIff(image, options, q, n - 1);
      PixelStopsIff(image, options, q, n - 1);
    }
  }

  lemma PixelPointIsPoint(image: DepthImage, q: Mat, k: nat)
    requires k < |image.depth| && image.width > 0
    ensures
      var point := PixelPoint(image, q, image.depth[k], k % image.width, k / image.width);
      point.Some? ==> IsPointOf(image, q, k, point.value)
  {
    hide XyFromDepth;
  }

  lemma {:induction false} FailureIsFinal(image: DepthImage, options: DepthOptions, q: Mat, n: nat, m: nat)
    requires n <= m <= |image.depth| && image.Valid() && Points(image, options, q, n).None?
    ensures Points(image, options, q, m).None?
    decreases m
  {
    if n < m {
      FailureIsFinal(image, options, q, n, m - 1);
    }
  }

  lemma FlatIndex(x: nat, y: nat, width: nat, height: nat)
    requires x < width && y < height
    ensures x + y * width < width * height
    ensures (x + y * width) % width == x && (x + y * width) / width == y
  {
    assert (y + 1) * width == y * width + width;
    MulMonotone(y + 1, height, width);
    DivisionIsUnique(x + y * width, width, y, x);
  }

  lemma MulMonotone(a: nat, b: nat, c: nat)
    requires a <= b
    ensures a * c <= b * c
  {
  }

  lemma DivisionIsUnique(n: nat, d: nat, k: int, r: nat)
    requires r < d && n == r + k * d
    ensures n / d == k && n % d == r
  {
    var k', r' := n / d, n % d;
    assert n == k' * d + r';
    assert (k - k') * d == r' - r;
    NoMultipleBetween(k - k', d, r' - r);
  }

  lemma NoMultipleBetween(k: int, d: int, e: int)
    requires k * d == e && -d < e < d
    ensures k == 0
  {
  }

  /** How the loop body's pixel extends what was collected. */
  lemma PointsGrow(image: DepthImage, options: DepthOptions, q: Mat, x: nat, y: nat)
    requires image.Valid() && x < image.width && y < image.height
    ensures
      var idx := x + y * image.width;
      && idx < |image.depth|
      && Points(image, options, q, idx + 1) ==
         match Points(image, options, q, idx)
         case None => None
         case Some(points) =>
           if !Emits(image, options, image.depth[idx]) then Some(points)
           else
             match PixelPoint(image, q, image.depth[idx], x, y)
             case None => None
             case Some(point) => Some(points + [point])
  {
    hide Emits, PixelPoint;
    FlatIndex(x, y, image.width, image.height);
  }

  /** None where the program stops at a check. */
  method MakeXyzsFromDepthImage(image: DepthImage, options: DepthOptions, inverse: Mat)
    returns (out: Option<seq<Point>>)
    requires image.Valid()
    ensures out == Points(image, options, inverse, |image.depth|)
  {
    hide Emits, PixelPoint, Points;
    var xyzs: seq<Point> := [];
    NoPoints(image, options, inverse);
    for yidx := 0 to image.height
      invariant yidx * image.width <= |image.depth|
      invariant Points(image, options, inverse, yidx * image.width) == Some(xyzs)
    {
      ghost var row := yidx * image.width;
      MulMonotone(yidx + 1, image.height, image.width);
      assert (yidx + 1) * image.width == row + image.width;
      for xidx := 0 to image.width
        invariant row + xidx <= |image.depth|
        invariant Points(image, options, inverse, row + xidx) == Some(xyzs)
      {
        PointsGrow(image, options, inverse, xidx, yidx);
        var idx := xidx + yidx * image.width;
        var step := PixelStep(image, options, inverse, image.depth[idx], xidx, yidx);
        if step.Stopped? {
          FailureIsFinal(image, options, inverse, idx + 1, |image.depth|);
          return None;
        }
        if step.Pushed? {
          xyzs := xyzs + [step.point];
        }
        assert row + xidx + 1 == idx + 1;
      }
    }
    out := Some(xyzs);
  }

  lemma NoPoints(image: DepthImage, options: DepthOptions, q: Mat)
    requires image.Valid()
    ensures Points(image, options, q, 0) == Some([])
  {
  }

  datatype Outcome = Skipped | Pushed(point: Point) | Stopped

  /** One iteration of the inner loop, with its continue statements. */
  method PixelStep(image: DepthImage, options: DepthOptions, inverse: Mat, zi: nat, xidx: nat, yidx: nat)
    returns (outcome: Outcome)
    ensures
      outcome ==
      if !Emits(image, options, zi) then Skipped
      else
        match PixelPoint(image, inverse, zi, xidx, yidx)
        case Some(point) => Pushed(point)
        case None => Stopped
    ensures outcome.Skipped? <==>
            if zi == 0 then options.removeZeros
            else
              || (options.minDepth.Some? && zi as real * image.scale < options.minDepth.value)
              || (options.maxDepth.Some? && zi as real * image.scale > options.maxDepth.value)
  {
    hide XyFromDepth;
    if zi == 0 {
      if options.removeZeros {
        return Skipped;
      }
      return Pushed(Point(0.0, 0.0, 0.0));
    }
    var z := image.DepthOf(zi);
    if options.minDepth.Some? && z < options.minDepth.value {
      return Skipped;
    }
    if options.maxDepth.Some? && z > options.maxDepth.value {
      return Skipped;
    }
    var xy := XyFromDepth(inverse, xidx as real + 0.5, yidx as real + 0.5, z);
    if xy.None? {
      return Stopped;
    }
    outcome := Pushed(Point(xy.value.0, xy.value.1, z));
  }

  // ---------------------------------------------------------------- the colour image

  datatype Colour = Colour(r: int, g: int, b: int)

  const BLACK := Colour(0, 0, 0)

  datatype RgbImage = RgbImage(width: nat, height: nat, pixels: seq<Colour>, imageCamera: Mat)

  /** Conversion to int drops the fraction. */
  function Truncate(r: real): int {
    if r >= 0.0 then r.Floor else -(-r).Floor
  }

  /** The pixel a point falls in. Division by w = 0 has no value that converts to int, so
      the pixel then is whatever the platform makes of it. */
  function PixelOf(m: Mat, p: Point, platform: Point -> (int, int)): (int, int) {
    match Project(m, p)
    case Some(uv) => (Truncate(uv.0), Truncate(uv.1))
    case None => platform(p)
  }

  /** None where the index check fails. */
  function ColourOf(image: RgbImage, m: Mat, p: Point, platform: Point -> (int, int)): Option<Colour> {
    var pixel := PixelOf(m, p, platform);
    if pixel.0 < 0 || pixel.0 >= image.width || pixel.1 < 0 || pixel.1 >= image.height then Some(BLACK)
    else
      var flat := pixel.1 * image.width + pixel.0;
      if 0 <= flat < |image.pixels| then Some(image.pixels[flat]) else None
  }

  ghost function Colours(image: RgbImage, m: Mat, points: seq<Point>, platform: Point -> (int, int))
    : (out: Option<seq<Colour>>)
    ensures out.Some? ==> |out.value| == |points|
  {
    if points == [] then Some([])
    else
      var n := |points| - 1;
      match Colours(image, m, points[..n], platform)
      case None => None
      case Some(colours) =>
        match ColourOf(image, m, points[n], platform)
        case None => None
        case Some(colour) => Some(colours + [colour])
  }

  lemma {:induction false} ColoursArePointwise(image: RgbImage, m: Mat, points: seq<Point>,
                                               platform: Point -> (int, int))
    ensures
      var out := Colours(image, m, points, platform);
      && (out.None? <==> exists i :: 0 <= i < |points| && ColourOf(image, m, points[i], platform).None?)
      && (out.Some? ==>
          forall i :: 0 <= i < |points| ==> Some(out.value[i]) == ColourOf(image, m, points[i], platform))
  {
    hide ColourOf;
    if points != [] {
      var n := |points| - 1;
      var before, out := Colours(image, m, points[..n], platform), Colours(image, m, points, platform);
      ColoursArePointwise(image, m, points[..n], platform);
      if before.None? {
        var i :| 0 <= i < n && ColourOf(image, m, points[..n][i], platform).None?;
        assert ColourOf(image, m, points[i], platform).None?;
      } else if ColourOf(image, m, points[n], platform).Some? {
        forall i | 0 <= i < |points|
          ensures Some(out.value[i]) == ColourOf(image, m, points[i], platform)
        {
          assert i < n ==> points[..n][i] == points[i];
        }
      }
    }
  }

  method MakeRgbsFromXyzs(image: RgbImage, transform: Mat, points: seq<Point>, platform: Point -> (int, int))
    returns (out: Option<seq<Colour>>)
    ensures out == Colours(image, Mul(image.imageCamera, transform), points, platform)
  {
    hide Mul, PixelOf;
    var m := Mul(image.imageCamera, transform);
    var rgbs: seq<Colour> := [];
    for i := 0 to |points|
      invariant Colours(image, m, points[..i], platform) == Some(rgbs)
    {
      assert points[..i + 1][..i] == points[..i];
      var pixel := PixelOf(m, points[i], platform);
      var ix, iy := pixel.0, pixel.1;
      if ix < 0 || ix >= image.width || iy < 0 || iy >= image.height {
        rgbs := rgbs + [BLACK];
      } else {
        var flat := iy * image.width + ix;
        if flat < |image.pixels| {
          rgbs := rgbs + [image.pixels[flat]];
        } else {
          assert ColourOf(image, m, points[i], platform).None?;
          ColoursArePointwise(image, m, points, platform);
          return None;
        }
      }
    }
    assert points[..|points|] == points;
    out := Some(rgbs);
  }

  /** A projected point is coloured from the image exactly when its coordinates lie above
      -1 and below the size: truncation lets the strip between -1 and 0 in, though the
      interface calls it out of bounds. */
  lemma InBoundsIff(u: real, size: nat)
    ensures 0 <= Truncate(u) < size <==> size > 0 && -1.0 < u < size as real
  {
    if u >= 0.0 {
      assert u.Floor as real <= u < u.Floor as real + 1.0;
    } else {
      assert (-u).Floor as real <= -u < (-u).Floor as real + 1.0;
    }
  }

  lemma TruncateDropsTheFraction(r: real)
    ensures if r >= 0.0 then r - 1.0 < Truncate(r) as real <= r else r <= Truncate(r) as real < r + 1.0
  {
  }

  /** A point's image coordinates: transformed, then projected. */
  lemma TransformedThenProjected(camera: Mat, transform: Mat, point: Point)
    ensures
      var v := Apply(camera, Apply(transform, Vec(point.x, point.y, point.z, 1.0)));
      Project(Mul(camera, transform), point) == if v.w == 0.0 then None else Some((v.x / v.w, v.y / v.w))
  {
    hide Apply, Mul;
    ApplyOfMul(camera, transform, point.Homogeneous());
  }

  /** For every point that projects: the image's colour exactly if both coordinates lie so,
      and black otherwise. */
  lemma ColourOfProjected(image: RgbImage, m: Mat, p: Point, platform: Point -> (int, int))
    requires |image.pixels| == image.width * image.height && Project(m, p).Some?
    ensures
      var (u, v) := Project(m, p).value;
      if -1.0 < u < image.width as real && -1.0 < v < image.height as real && image.width > 0 && image.height > 0
      then
        var k := Truncate(v) * image.width + Truncate(u);
        0 <= k < |image.pixels| && ColourOf(image, m, p, platform) == Some(image.pixels[k])
      else ColourOf(image, m, p, platform) == Some(Colour(0, 0, 0))
  {
    hide Project, Truncate;
    var (u, v) := Project(m, p).value;
    InBoundsIff(u, image.width);
    InBoundsIff(v, image.height);
    var x, y := Truncate(u), Truncate(v);
    if 0 <= x < image.width && 0 <= y < image.height {
      FlatIndex(x, y, image.width, image.height);
    }
  }

  /** A point half a pixel left of the image is given the colour of its first pixel. */
  lemma PointOutsideIsColoured(colour: Colour, platform: Point -> (int, int))
    ensures
      var image, p := RgbImage(1, 1, [colour], IDENTITY), Point(-0.5, 0.5, 1.0);
      Project(IDENTITY, p) == Some((-0.5, 0.5)) && ColourOf(image, IDENTITY, p, platform) == Some(colour)
  {
    hide Project, Truncate;
    var image, p := RgbImage(1, 1, [colour], IDENTITY), Point(-0.5, 0.5, 1.0);
    ProjectByIdentity(p);
    assert |image.pixels| == image.width * image.height;
    ColourOfProjected(image, IDENTITY, p, platform);
    InBoundsIff(-0.5, 1);
    InBoundsIff(0.5, 1);
  }

  lemma ProjectByIdentity(p: Point)
    ensures Project(IDENTITY, p) == Some((p.x, p.y))
  {
    hide Apply;
    ApplyIdentity(p.Homogeneous());
  }

  // ---------------------------------------------------------------- both together

  method MakeXyzsAndRgbsFromRgbd(depth: DepthImage, inverse: Mat, rgb: RgbImage, transform: Mat,
                                 options: DepthOptions, platform: Point -> (int, int))
    returns (xyzs: Option<seq<Point>>, rgbs: Option<seq<Colour>>)
    requires depth.Valid()
    ensures xyzs == Points(depth, options, inverse, |depth.depth|)
    ensures rgbs == if xyzs.None? then None
                    else Colours(rgb, Mul(rgb.imageCamera, transform), xyzs.value, platform)
  {
    xyzs := MakeXyzsFromDepthImage(depth, options, inverse);
    if xyzs.None? {
      return xyzs, None;
    }
    rgbs := MakeRgbsFromXyzs(rgb, transform, xyzs.value, platform);
  }

  ghost predicate SameCamera(depth: DepthImage, rgb: RgbImage, q: Mat) {
    && depth.Valid()
    && Inverses(depth.imageCamera, q)
    && rgb.imageCamera == depth.imageCamera
    && rgb.width == depth.width && rgb.height == depth.height
    && |rgb.pixels| == |depth.depth|
  }

  lemma TruncateCentre(x: nat)
    ensures Truncate(x as real + 0.5) == x
  {
  }

  lemma PixelIsInImage(k: nat, width: nat, height: nat)
    requires k < width * height
    ensures width > 0 && k % width < width && k / width < height && (k / width) * width + k % width == k
  {
    if width == 0 {
      assert false;
    }
    if k / width >= height {
      MulMonotone(height, k / width, width);
    }
  }

  lemma PointOfPixel(image: DepthImage, q: Mat, zi: nat, x: nat, y: nat, point: Point)
    requires zi != 0 && PixelPoint(image, q, zi, x, y) == Some(point)
    ensures point.z == image.DepthOf(zi)
    ensures XyFromDepth(q, x as real + 0.5, y as real + 0.5, point.z) == Some((point.x, point.y))
  {
    hide XyFromDepth;
  }

  lemma PixelIsPoint(image: DepthImage, q: Mat, k: nat, point: Point)
    requires k < |image.depth| && image.width > 0 && image.depth[k] != 0 && IsPointOf(image, q, k, point)
    ensures point.z == image.depth[k] as real * image.scale
    ensures PixelPoint(image, q, image.depth[k], k % image.width, k / image.width) == Some(point)
  {
    hide XyFromDepth;
    assert image.DepthOf(image.depth[k]) == point.z;
  }

  lemma OriginIsPoint(image: DepthImage, q: Mat, k: nat, point: Point)
    requires k < |image.depth| && image.width > 0 && image.depth[k] == 0 && IsPointOf(image, q, k, point)
    ensures point == Point(0.0, 0.0, 0.0)
  {
  }

  /** With one camera, the point of a pixel of nonzero depth takes that pixel's colour. */
  lemma PixelKeepsItsColour(depth: DepthImage, rgb: RgbImage, q: Mat, zi: nat, x: nat, y: nat, k: nat,
                            point: Point, platform: Point -> (int, int))
    requires SameCamera(depth, rgb, q)
    requires zi != 0 && x < depth.width && y < depth.height
    requires k == y * depth.width + x && k < |rgb.pixels|
    requires PixelPoint(depth, q, zi, x, y) == Some(point)
    ensures ColourOf(rgb, Mul(rgb.imageCamera, IDENTITY), point, platform) == Some(rgb.pixels[k])
  {
    hide Inverses, XyFromDepth, Project, Truncate, Mul, PixelPoint;
    PointOfPixel(depth, q, zi, x, y, point);
    UnprojectThenProject(depth.imageCamera, q, x as real + 0.5, y as real + 0.5, point.z);
    TruncateCentre(x);
    TruncateCentre(y);
    MulIdentity(rgb.imageCamera);
    assert PixelOf(rgb.imageCamera, point, platform) == (x, y);
  }

  /** Colouring cannot stop the program when the image has the size it claims. */
  lemma ColouringNeverStops(image: RgbImage, m: Mat, points: seq<Point>, platform: Point -> (int, int))
    requires |image.pixels| == image.width * image.height
    ensures Colours(image, m, points, platform).Some?
  {
    hide PixelOf;
    forall i | 0 <= i < |points|
      ensures ColourOf(image, m, points[i], platform).Some?
    {
      var pixel := PixelOf(m, points[i], platform);
      if 0 <= pixel.0 < image.width && 0 <= pixel.1 < image.height {
        FlatIndex(pixel.0, pixel.1, image.width, image.height);
      }
    }
    ColoursArePointwise(image, m, points, platform);
  }

  /** What the outputs hold for pixel k. */
  ghost predicate PixelIsShown(depth: DepthImage, rgb: RgbImage, k: nat, point: Point, colour: Colour) {
    && k < |depth.depth| && k < |rgb.pixels|
    && if depth.depth[k] == 0 then point == Point(0.0, 0.0, 0.0)
       else point.z == depth.depth[k] as real * depth.scale && colour == rgb.pixels[k]
  }

  /** With identical cameras and the identity transform, and unless the unprojection stops
      the program, the points are those of the emitting pixels in row-major order, and each
      one of nonzero depth has its own pixel's colour and depth. */
  lemma EachPixelGetsItsColour(depth: DepthImage, rgb: RgbImage, q: Mat, options: DepthOptions,
                               platform: Point -> (int, int), idxs: seq<nat>, points: seq<Point>)
    requires SameCamera(depth, rgb, q)
    requires idxs == Emitting(depth, options, |depth.depth|)
    requires Points(depth, options, q, |depth.depth|) == Some(points)
    ensures |points| == |idxs|
    ensures
      var colours := Colours(rgb, Mul(rgb.imageCamera, IDENTITY), points, platform);
      && colours.Some?
      && forall i :: 0 <= i < |idxs| ==> PixelIsShown(depth, rgb, idxs[i], points[i], colours.value[i])
  {
    hide Inverses, XyFromDepth, Mul, ColourOf, Emits, Points, Emitting, IsPointOf;
    var m := Mul(rgb.imageCamera, IDENTITY);
    PointsAreThePixels(depth, options, q, |depth.depth|);
    ColouringNeverStops(rgb, m, points, platform);
    ColoursArePointwise(rgb, m, points, platform);
    forall i | 0 <= i < |idxs|
      ensures PixelIsShown(depth, rgb, idxs[i], points[i], Colours(rgb, m, points, platform).value[i])
    {
      var k := idxs[i];
      var x, y := k % depth.width, k / depth.width;
      PixelIsInImage(k, depth.width, depth.height);
      if depth.depth[k] == 0 {
        OriginIsPoint(depth, q, k, points[i]);
      } else {
        PixelIsPoint(depth, q, k, points[i]);
        PixelKeepsItsColour(depth, rgb, q, depth.depth[k], x, y, k, points[i], platform);
      }
    }
  }
}
