/** Axis-aligned bounding boxes of a ray tracer: the split-axis cycle, the box
    itself with its surface index, the minimal enclosing box of a range of
    boxes, the per-axis comparator used to sort boxes, and the slab test of a
    ray against a box. Coordinates are real numbers, not IEEE floats. */
module BoundingBoxes {

  /** The closed enumeration of split axes. */
  datatype Axis = X | Y | Z

  /** The successor in the fixed cycle X -> Y -> Z -> X. */
  function NextAxis(axis: Axis): (next: Axis)
    ensures next != axis
  {
    match axis
    case X => Y
    case Y => Z
    case Z => X
  }

  /** Applying the successor three times returns the starting axis, and the
      three axes are visited in the order X, Y, Z. */
  lemma NextAxisCycle(axis: Axis)
    ensures NextAxis(NextAxis(NextAxis(axis))) == axis
    ensures NextAxis(X) == Y && NextAxis(Y) == Z && NextAxis(Z) == X
    ensures NextAxis(axis) != axis && NextAxis(NextAxis(axis)) != axis
  {
  }

  /** A point or a vector in three dimensions. */
  datatype Vec3 = Vec3(x: real, y: real, z: real) {
    /** The coordinate along `axis`. */
    function On(axis: Axis): real {
      match axis
      case X => x
      case Y => y
      case Z => z
    }
  }

  /** A ray: an origin and a direction, which need not be of unit length. */
  datatype Ray = Ray(origin: Vec3, direction: Vec3) {
    /** The point reached after travelling `t` times the direction. */
    function At(t: real): (p: Vec3)
      ensures forall axis: Axis :: p.On(axis) == origin.On(axis) + t * direction.On(axis)
    {
      Vec3(origin.x + t * direction.x, origin.y + t * direction.y, origin.z + t * direction.z)
    }
  }

  function RealMin(a: real, b: real): real { if a <= b then a else b }
  function RealMax(a: real, b: real): real { if a >= b then a else b }

  /** How a ray meets the slab between the two planes of one axis: a ray
      parallel to the slab is inside it for every distance or for none; any
      other ray is inside it between an entry and an exit distance. */
  datatype Slab = Parallel(inside: bool) | Crossing(enter: real, exit: real)

  /** The running interval of distances at which the ray is inside every slab
      seen so far: empty, still the whole line, or a closed interval. */
  datatype Window = Missed | Unbounded | Between(tmin: real, tmax: real)

  /** Distance at which `t` lies in the given slab. */
  predicate InSlab(s: Slab, t: real) {
    match s
    case Parallel(inside) => inside
    case Crossing(enter, exit) => enter <= t <= exit
  }

  predicate InWindow(w: Window, t: real) {
    match w
    case Missed => false
    case Unbounded => true
    case Between(tmin, tmax) => tmin <= t <= tmax
  }

  /** Intersects the running window with one more slab. */
  function Narrow(w: Window, s: Slab): (r: Window)
    ensures forall t :: InWindow(r, t) <==> InWindow(w, t) && InSlab(s, t)
  {
    match s
    case Parallel(inside) => if inside then w else Missed
    case Crossing(enter, exit) =>
      match w
      case Missed => Missed
      case Unbounded => Between(enter, exit)
      case Between(tmin, tmax) => Between(RealMax(tmin, enter), RealMin(tmax, exit))
  }

  /** The distance returned for a ray that misses the box. */
  const MissDistance: real := -1.0

  /** A box with its six extents, its center and the index of the scene
      primitive it bounds. The extents and the center are constants here:
      nothing in the box or the hierarchy writes them after construction.
      Only the surface index is assigned afterwards. */
  class BoundingBox {
    const xmin: real
    const xmax: real
    const ymin: real
    const ymax: real
    const zmin: real
    const zmax: real
    const center: Vec3 := Vec3((xmin + xmax) / 2.0, (ymin + ymax) / 2.0, (zmin + zmax) / 2.0)
    var surfaceIndex: int

    /** The constructor takes the extents in the order x, y, z, each as
        (min, max). It leaves the surface index unset. */
    constructor (xmin: real, xmax: real, ymin: real, ymax: real, zmin: real, zmax: real)
      ensures this.xmin == xmin && this.xmax == xmax
      ensures this.ymin == ymin && this.ymax == ymax
      ensures this.zmin == zmin && this.zmax == zmax
    {
      this.xmin, this.xmax := xmin, xmax;
      this.ymin, this.ymax := ymin, ymax;
      this.zmin, this.zmax := zmin, zmax;
    }

    function Min(axis: Axis): real {
      match axis
      case X => xmin
      case Y => ymin
      case Z => zmin
    }

    function Max(axis: Axis): real {
      match axis
      case X => xmax
      case Y => ymax
      case Z => zmax
    }

    /** The center lies half way between the two extents on every axis. */
    lemma CenterIsMidpoint(axis: Axis)
      ensures center.On(axis) == (Min(axis) + Max(axis)) / 2.0
      ensures Min(axis) <= Max(axis) ==> Min(axis) <= center.On(axis) <= Max(axis)
    {
    }

    /** Min <= max on every axis; equality is a box of zero thickness. */
    predicate Proper() {
      forall axis: Axis :: Min(axis) <= Max(axis)
    }

    /** Closed containment of a point. */
    predicate Contains(p: Vec3) {
      forall axis: Axis :: Min(axis) <= p.On(axis) <= Max(axis)
    }

    function GetSurfaceIndex(): int
      reads this
    {
      surfaceIndex
    }

    /** Assigning the surface index is read back by GetSurfaceIndex; the
        extents and the center are constant, so nothing else changes. */
    method SetSurfaceIndex(idx: int)
      modifies this
      ensures GetSurfaceIndex() == idx
    {
      surfaceIndex := idx;
    }

    /** The comparator used to sort boxes along an axis: true exactly when
        the center of `a` lies strictly above the center of `b` on it. */
    static predicate Compare(a: BoundingBox, b: BoundingBox, direction: Axis) {
      a.center.On(direction) > b.center.On(direction)
    }

    /** The slab of one axis as the ray crosses it; the entry and exit are
        swapped when the direction component is negative. */
    function SlabOf(ray: Ray, axis: Axis): Slab {
      var o := ray.origin.On(axis);
      var d := ray.direction.On(axis);
      if d == 0.0 then Parallel(Min(axis) <= o <= Max(axis))
      else if d > 0.0 then Crossing((Min(axis) - o) / d, (Max(axis) - o) / d)
      else Crossing((Max(axis) - o) / d, (Min(axis) - o) / d)
    }

    /** The interval of distances left after narrowing (-inf, +inf) by the
        three slabs. */
    function HitWindow(ray: Ray): Window {
      Narrow(Narrow(Narrow(Unbounded, SlabOf(ray, X)), SlabOf(ray, Y)), SlabOf(ray, Z))
    }

    /** The slab method: a negative sentinel on a miss (the window is empty
        or lies behind the origin), otherwise the smallest non-negative bound
        of the window. A ray with a zero direction whose origin is inside the
        box is at it at distance 0. */
    function IntersectionDistance(ray: Ray): real {
      match HitWindow(ray)
      case Missed => MissDistance
      case Unbounded => 0.0
      case Between(tmin, tmax) =>
        if tmin > tmax || tmax < 0.0 then MissDistance
        else if tmin >= 0.0 then tmin
        else tmax
    }

    predicate DoesIntersect(ray: Ray) {
      IntersectionDistance(ray) >= 0.0
    }

    /** The distance `t` is in the slab of `axis` exactly when the point of
        the ray at `t` lies between the two planes of that axis. */
    lemma SlabExact(ray: Ray, axis: Axis, t: real)
      ensures InSlab(SlabOf(ray, axis), t) <==> Min(axis) <= ray.At(t).On(axis) <= Max(axis)
    {
      var o := ray.origin.On(axis);
      var d := ray.direction.On(axis);
      assert ray.At(t).On(axis) == o + t * d;
      if d > 0.0 {
        ForwardSlabExact(Min(axis), Max(axis), o, d, t);
      } else if d < 0.0 {
        BackwardSlabExact(Min(axis), Max(axis), o, d, t);
      }
    }

    /** The window holds `t` exactly when the point of the ray at `t` is in
        the box. */
    lemma WindowExact(ray: Ray, t: real)
      ensures InWindow(HitWindow(ray), t) <==> Contains(ray.At(t))
    {
      SlabExact(ray, X, t);
      SlabExact(ray, Y, t);
      SlabExact(ray, Z, t);
      var p := ray.At(t);
      assert Contains(p) <==> Min(X) <= p.On(X) <= Max(X) && Min(Y) <= p.On(Y) <= Max(Y)
                              && Min(Z) <= p.On(Z) <= Max(Z);
    }

    /** The slab test is exact: the ray hits the box if and only if some
        point of the ray at a non-negative distance is in the box, and on a
        hit the distance returned is such a point. */
    lemma IntersectIffReachable(ray: Ray)
      ensures DoesIntersect(ray) <==> exists t: real :: t >= 0.0 && Contains(ray.At(t))
      ensures DoesIntersect(ray) ==> Contains(ray.At(IntersectionDistance(ray)))
      ensures !DoesIntersect(ray) ==> IntersectionDistance(ray) < 0.0
    {
      var w := HitWindow(ray);
      var dist := IntersectionDistance(ray);
      if DoesIntersect(ray) {
        WindowExact(ray, dist);
        assert InWindow(w, dist);
      }
      if exists t: real :: t >= 0.0 && Contains(ray.At(t)) {
        var t: real :| t >= 0.0 && Contains(ray.At(t));
        WindowExact(ray, t);
      }
    }

    /** When the origin is outside the box, a hit reports the first point of
        the ray in the box: no smaller non-negative distance is in it. */
    lemma IntersectionIsNearest(ray: Ray, t: real)
      requires !Contains(ray.origin)
      requires DoesIntersect(ray)
      requires 0.0 <= t < IntersectionDistance(ray)
      ensures !Contains(ray.At(t))
    {
      WindowExact(ray, 0.0);
      assert ray.At(0.0) == ray.origin;
      WindowExact(ray, t);
    }

    /** Combine: a new box that is the minimal box enclosing every box of the
        non-empty range a[first..last), folding running minima and maxima. */
    static method Combine(a: array<BoundingBox>, first: int, last: int) returns (r: BoundingBox)
      requires 0 <= first < last <= a.Length
      ensures fresh(r)
      ensures IsHullOf(r, a[first..last])
    {
      var b := a[first];
      var x0, x1, y0, y1, z0, z1 := b.xmin, b.xmax, b.ymin, b.ymax, b.zmin, b.zmax;
      var k := first + 1;
      while k < last
        invariant first < k <= last
        invariant x0 == MinOf(a[first..k], X) && x1 == MaxOf(a[first..k], X)
        invariant y0 == MinOf(a[first..k], Y) && y1 == MaxOf(a[first..k], Y)
        invariant z0 == MinOf(a[first..k], Z) && z1 == MaxOf(a[first..k], Z)
      {
        b := a[k];
        assert a[first..k + 1][..k - first] == a[first..k];
        x0, x1 := RealMin(x0, b.xmin), RealMax(x1, b.xmax);
        y0, y1 := RealMin(y0, b.ymin), RealMax(y1, b.ymax);
        z0, z1 := RealMin(z0, b.zmin), RealMax(z1, b.zmax);
        k := k + 1;
      }
      r := new BoundingBox(x0, x1, y0, y1, z0, z1);
    }
  }

  /** For d > 0: u / d <= t exactly when u <= t * d, and likewise for >=. */
  lemma DivBound(u: real, d: real, t: real)
    requires d > 0.0
    ensures u / d <= t <==> u <= t * d
    ensures u / d >= t <==> u >= t * d
  {
    var q := u / d;
    assert q * d == u;
    if q <= t {
      MulMono(q, t, d);
    }
    if q >= t {
      MulMono(t, q, d);
    }
    if u <= t * d && q > t {
      MulMonoStrict(t, q, d);
    }
    if u >= t * d && q < t {
      MulMonoStrict(q, t, d);
    }
  }

  /** A ray with positive direction component `d` is between the planes
      `lo` and `hi` from distance (lo - o) / d to (hi - o) / d. */
  lemma ForwardSlabExact(lo: real, hi: real, o: real, d: real, t: real)
    requires d > 0.0
    ensures (lo - o) / d <= t <= (hi - o) / d <==> lo <= o + t * d <= hi
  {
    DivBound(lo - o, d, t);
    DivBound(hi - o, d, t);
  }

  /** With a negative component the entry is at the `hi` plane. */
  lemma BackwardSlabExact(lo: real, hi: real, o: real, d: real, t: real)
    requires d < 0.0
    ensures (hi - o) / d <= t <= (lo - o) / d <==> lo <= o + t * d <= hi
  {
    DivBound(o - lo, -d, -t);
    DivBound(o - hi, -d, -t);
    assert (lo - o) / d == (o - lo) / (-d);
    assert (hi - o) / d == (o - hi) / (-d);
    assert (-t) * (-d) == t * d;
  }

  lemma MulMono(a: real, b: real, d: real)
    requires a <= b && d > 0.0
    ensures a * d <= b * d
  {
    assert b * d - a * d == (b - a) * d;
  }

  lemma MulMonoStrict(a: real, b: real, d: real)
    requires a < b && d > 0.0
    ensures a * d < b * d
  {
    assert b * d - a * d == (b - a) * d;
  }

  /** The least minimum on `axis` over a non-empty sequence of boxes, folded
      from the left as Combine does. */
  function MinOf(s: seq<BoundingBox>, axis: Axis): real
    requires |s| > 0
  {
    if |s| == 1 then s[0].Min(axis) else RealMin(MinOf(s[..|s| - 1], axis), s[|s| - 1].Min(axis))
  }

  /** The greatest maximum on `axis` over a non-empty sequence of boxes. */
  function MaxOf(s: seq<BoundingBox>, axis: Axis): real
    requires |s| > 0
  {
    if |s| == 1 then s[0].Max(axis) else RealMax(MaxOf(s[..|s| - 1], axis), s[|s| - 1].Max(axis))
  }

  /** `outer` encloses `inner` on every axis. */
  predicate Encloses(outer: BoundingBox, inner: BoundingBox) {
    forall axis: Axis :: outer.Min(axis) <= inner.Min(axis) && inner.Max(axis) <= outer.Max(axis)
  }

  /** `b` has, on each axis, the least minimum and the greatest maximum of `s`. */
  predicate IsHullOf(b: BoundingBox, s: seq<BoundingBox>)
    requires |s| > 0
  {
    forall axis: Axis :: b.Min(axis) == MinOf(s, axis) && b.Max(axis) == MaxOf(s, axis)
  }

  /** MinOf is a lower bound of every minimum in `s`, attained by one of
      them; MaxOf likewise for the maxima. */
  lemma MinMaxOfBounds(s: seq<BoundingBox>, axis: Axis)
    requires |s| > 0
    ensures forall i :: 0 <= i < |s| ==> MinOf(s, axis) <= s[i].Min(axis) && s[i].Max(axis) <= MaxOf(s, axis)
    ensures exists i :: 0 <= i < |s| && MinOf(s, axis) == s[i].Min(axis)
    ensures exists j :: 0 <= j < |s| && MaxOf(s, axis) == s[j].Max(axis)
  {
    MinOfBounds(s, axis);
    MaxOfBounds(s, axis);
  }

  lemma {:induction false} MinOfBounds(s: seq<BoundingBox>, axis: Axis)
    requires |s| > 0
    ensures forall i :: 0 <= i < |s| ==> MinOf(s, axis) <= s[i].Min(axis)
    ensures exists i :: 0 <= i < |s| && MinOf(s, axis) == s[i].Min(axis)
  {
    if |s| > 1 {
      var init := s[..|s| - 1];
      MinOfBounds(init, axis);
      var i :| 0 <= i < |init| && MinOf(init, axis) == init[i].Min(axis);
      assert init[i] == s[i];
      var w := if MinOf(s, axis) == s[|s| - 1].Min(axis) then |s| - 1 else i;
      assert MinOf(s, axis) == s[w].Min(axis);
      forall k | 0 <= k < |s|
        ensures MinOf(s, axis) <= s[k].Min(axis)
      {
        if k < |s| - 1 {
          assert init[k] == s[k];
        }
      }
    } else {
      assert MinOf(s, axis) == s[0].Min(axis);
    }
  }

  lemma {:induction false} MaxOfBounds(s: seq<BoundingBox>, axis: Axis)
    requires |s| > 0
    ensures forall i :: 0 <= i < |s| ==> s[i].Max(axis) <= MaxOf(s, axis)
    ensures exists j :: 0 <= j < |s| && MaxOf(s, axis) == s[j].Max(axis)
  {
    if |s| > 1 {
      var init := s[..|s| - 1];
      MaxOfBounds(init, axis);
      var j :| 0 <= j < |init| && MaxOf(init, axis) == init[j].Max(axis);
      assert init[j] == s[j];
      var w := if MaxOf(s, axis) == s[|s| - 1].Max(axis) then |s| - 1 else j;
      assert MaxOf(s, axis) == s[w].Max(axis);
      forall k | 0 <= k < |s|
        ensures s[k].Max(axis) <= MaxOf(s, axis)
      {
        if k < |s| - 1 {
          assert init[k] == s[k];
        }
      }
    } else {
      assert MaxOf(s, axis) == s[0].Max(axis);
    }
  }

  /** The fold over a concatenation is the min (max) of the two folds: the
      box of a range is the combination of the boxes of its two halves. */
  lemma {:induction false} MinMaxOfConcat(s: seq<BoundingBox>, t: seq<BoundingBox>, axis: Axis)
    requires |s| > 0 && |t| > 0
    ensures MinOf(s + t, axis) == RealMin(MinOf(s, axis), MinOf(t, axis))
    ensures MaxOf(s + t, axis) == RealMax(MaxOf(s, axis), MaxOf(t, axis))
    decreases |t|
  {
    if |t| == 1 {
      assert (s + t)[..|s + t| - 1] == s;
    } else {
      var init := t[..|t| - 1];
      MinMaxOfConcat(s, init, axis);
      assert (s + t)[..|s + t| - 1] == s + init;
      assert (s + t)[|s + t| - 1] == t[|t| - 1];
    }
  }

  /** The fold over two boxes is the min (max) of the two. */
  lemma MinMaxOfPair(c: BoundingBox, d: BoundingBox, axis: Axis)
    ensures MinOf([c, d], axis) == RealMin(c.Min(axis), d.Min(axis))
    ensures MaxOf([c, d], axis) == RealMax(c.Max(axis), d.Max(axis))
  {
    assert [c, d][..1] == [c];
  }

  /** The hull of a sequence encloses each of its boxes. */
  lemma HullEncloses(b: BoundingBox, s: seq<BoundingBox>)
    requires |s| > 0 && IsHullOf(b, s)
    ensures forall i :: 0 <= i < |s| ==> Encloses(b, s[i])
  {
    MinMaxOfBounds(s, X);
    MinMaxOfBounds(s, Y);
    MinMaxOfBounds(s, Z);
  }

  /** The hull is the minimal enclosing box: any box that encloses every box
      of the sequence encloses the hull. */
  lemma HullIsMinimal(b: BoundingBox, s: seq<BoundingBox>, c: BoundingBox)
    requires |s| > 0 && IsHullOf(b, s)
    requires forall i :: 0 <= i < |s| ==> Encloses(c, s[i])
    ensures Encloses(c, b)
  {
    MinMaxOfBounds(s, X);
    MinMaxOfBounds(s, Y);
    MinMaxOfBounds(s, Z);
    var ix :| 0 <= ix < |s| && MinOf(s, X) == s[ix].Min(X);
    var jx :| 0 <= jx < |s| && MaxOf(s, X) == s[jx].Max(X);
    var iy :| 0 <= iy < |s| && MinOf(s, Y) == s[iy].Min(Y);
    var jy :| 0 <= jy < |s| && MaxOf(s, Y) == s[jy].Max(Y);
    var iz :| 0 <= iz < |s| && MinOf(s, Z) == s[iz].Min(Z);
    var jz :| 0 <= jz < |s| && MaxOf(s, Z) == s[jz].Max(Z);
    assert Encloses(c, s[ix]) && Encloses(c, s[jx]) && Encloses(c, s[iy]);
    assert Encloses(c, s[jy]) && Encloses(c, s[iz]) && Encloses(c, s[jz]);
  }

  /** The hull of proper boxes is proper. */
  lemma HullIsProper(b: BoundingBox, s: seq<BoundingBox>)
    requires |s| > 0 && IsHullOf(b, s)
    requires forall i :: 0 <= i < |s| ==> s[i].Proper()
    ensures b.Proper()
  {
    HullEncloses(b, s);
    assert s[0].Proper() && Encloses(b, s[0]);
  }

  /** The comparator orders boxes by their centers on the axis: it is
      irreflexive, asymmetric and transitive, and incomparability (equal
      centers) is transitive, so it is a strict weak ordering. */
  lemma CompareIsStrictWeakOrder(a: BoundingBox, b: BoundingBox, c: BoundingBox, axis: Axis)
    ensures !BoundingBox.Compare(a, a, axis)
    ensures BoundingBox.Compare(a, b, axis) ==> !BoundingBox.Compare(b, a, axis)
    ensures BoundingBox.Compare(a, b, axis) && BoundingBox.Compare(b, c, axis) ==> BoundingBox.Compare(a, c, axis)
    ensures !BoundingBox.Compare(a, b, axis) && !BoundingBox.Compare(b, a, axis)
            && !BoundingBox.Compare(b, c, axis) && !BoundingBox.Compare(c, b, axis)
            ==> !BoundingBox.Compare(a, c, axis) && !BoundingBox.Compare(c, a, axis)
    ensures BoundingBox.Compare(a, b, axis) <==> a.Min(axis) + a.Max(axis) > b.Min(axis) + b.Max(axis)
  {
  }

  /** The comparator on boxes (1,2,13,14,5,6) and (10,12,3,4,50,60): false
      along X, true along Y, false along Z. */
  method CompareExample() returns (onX: bool, onY: bool, onZ: bool)
    ensures !onX && onY && !onZ
  {
    var box1 := new BoundingBox(1.0, 2.0, 13.0, 14.0, 5.0, 6.0);
    var box2 := new BoundingBox(10.0, 12.0, 3.0, 4.0, 50.0, 60.0);
    onX := BoundingBox.Compare(box1, box2, X);
    onY := BoundingBox.Compare(box1, box2, Y);
    onZ := BoundingBox.Compare(box1, box2, Z);
  }

  /** The ray from (-10,-10,-10) along +x misses the box (0..10)^3, whose
      y and z extents it runs parallel to and outside of, and hits the box
      (-20..20)^3. The origin is inside the second box, so the distance
      reported is where the ray leaves it, 30. */
  method IntersectionExample() returns (miss: real, hit: real)
    ensures miss < 0.0 && hit >= 0.0
    ensures hit == 30.0
  {
    var box1 := new BoundingBox(0.0, 10.0, 0.0, 10.0, 0.0, 10.0);
    var box2 := new BoundingBox(-20.0, 20.0, -20.0, 20.0, -20.0, 20.0);
    var ray := Ray(Vec3(-10.0, -10.0, -10.0), Vec3(1.0, 0.0, 0.0));
    miss := box1.IntersectionDistance(ray);
    hit := box2.IntersectionDistance(ray);
  }

  /** A box of zero thickness at the origin is hit by the ray from (-1,0,0)
      along +x, and missed by the parallel ray from (-1,1,0). */
  method FlatBoxExample() returns (hit: real, offset: real)
    ensures hit >= 0.0 && offset < 0.0
  {
    var box := new BoundingBox(0.0, 0.0, 0.0, 0.0, 0.0, 0.0);
    hit := box.IntersectionDistance(Ray(Vec3(-1.0, 0.0, 0.0), Vec3(1.0, 0.0, 0.0)));
    offset := box.IntersectionDistance(Ray(Vec3(-1.0, 1.0, 0.0), Vec3(1.0, 0.0, 0.0)));
  }
}
