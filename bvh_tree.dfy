/** The bounding volume hierarchy: a binary tree of bounding boxes built once
    from a range of box references, splitting the range at its midpoint after
    ordering it along an axis that advances by one step per level. */
module BVHTrees {
  import opened BoundingBoxes

  /** A leaf wraps one input box; an internal node owns a combined box and
      exactly two children, so a node with one missing child cannot occur. */
  datatype Tree = Leaf(bbox: BoundingBox) | Node(bbox: BoundingBox, left: Tree, right: Tree)

  /** 1 for a leaf, one more than the deeper child for an internal node. */
  function Depth(t: Tree): (d: nat)
    ensures d >= 1
    ensures d == 1 <==> t.Leaf?
  {
    match t
    case Leaf(_) => 1
    case Node(_, l, r) => 1 + if Depth(l) >= Depth(r) then Depth(l) else Depth(r)
  }

  /** The leaf boxes from left to right. */
  function Leaves(t: Tree): (s: seq<BoundingBox>)
    ensures |s| >= 1
  {
    match t
    case Leaf(b) => [b]
    case Node(_, l, r) => Leaves(l) + Leaves(r)
  }

  /** Every internal node's box is the combination of its two children's boxes. */
  predicate Valid(t: Tree) {
    match t
    case Leaf(_) => true
    case Node(b, l, r) => IsHullOf(b, [l.bbox, r.bbox]) && Valid(l) && Valid(r)
  }

  /** The shape the build produces when it starts at `axis`: each internal
      node puts the larger half of its leaves (the ceiling of n/2) on the
      left and the smaller half on the right, no leaf on the right lies above
      a leaf on the left along `axis`, and the children are built along the
      next axis of the cycle. */
  predicate BuiltAlong(t: Tree, axis: Axis) {
    match t
    case Leaf(_) => true
    case Node(_, l, r) =>
      && |Leaves(r)| == (|Leaves(l)| + |Leaves(r)|) / 2
      && (forall p, q :: p in Leaves(l) && q in Leaves(r) ==> !BoundingBox.Compare(q, p, axis))
      && BuiltAlong(l, NextAxis(axis)) && BuiltAlong(r, NextAxis(axis))
  }

  function Pow2(k: nat): (p: nat)
    ensures p >= 1
  {
    if k == 0 then 1 else 2 * Pow2(k - 1)
  }

  /** The number of halvings, rounding up, that bring n down to 1. */
  function CeilLog2(n: nat): nat
    requires n >= 1
  {
    if n == 1 then 0 else 1 + CeilLog2((n + 1) / 2)
  }

  /** CeilLog2(n) is the ceiling of the base-2 logarithm of n. */
  lemma {:induction false} CeilLog2IsCeiling(n: nat)
    requires n >= 1
    ensures n <= Pow2(CeilLog2(n))
    ensures n >= 2 ==> Pow2(CeilLog2(n) - 1) < n
  {
    if n >= 2 {
      CeilLog2IsCeiling((n + 1) / 2);
    }
  }

  lemma {:induction false} CeilLog2Monotone(m: nat, n: nat)
    requires 1 <= m <= n
    ensures CeilLog2(m) <= CeilLog2(n)
  {
    if m >= 2 {
      CeilLog2Monotone((m + 1) / 2, (n + 1) / 2);
    }
  }

  /** A tree of depth d has at most 2^(d-1) leaves. */
  lemma {:induction false} LeafCountBound(t: Tree)
    ensures |Leaves(t)| <= Pow2(Depth(t) - 1)
  {
    match t
    case Leaf(_) =>
    case Node(_, l, r) =>
      LeafCountBound(l);
      LeafCountBound(r);
      PowMonotone(Depth(l) - 1, Depth(t) - 2);
      PowMonotone(Depth(r) - 1, Depth(t) - 2);
  }

  lemma {:induction false} PowMonotone(i: nat, j: nat)
    requires i <= j
    ensures Pow2(i) <= Pow2(j)
  {
    if i < j {
      PowMonotone(i, j - 1);
    }
  }

  /** The box of a valid tree is the combination of all its leaves. */
  lemma {:induction false} ValidHull(t: Tree)
    requires Valid(t)
    ensures IsHullOf(t.bbox, Leaves(t))
  {
    match t
    case Leaf(b) =>
    case Node(b, l, r) =>
      ValidHull(l);
      ValidHull(r);
      forall axis: Axis
        ensures b.Min(axis) == MinOf(Leaves(t), axis) && b.Max(axis) == MaxOf(Leaves(t), axis)
      {
        MinMaxOfConcat(Leaves(l), Leaves(r), axis);
        MinMaxOfPair(l.bbox, r.bbox, axis);
      }
  }

  /** A node over two valid trees whose box combines all their leaves is valid. */
  lemma JoinValid(b: BoundingBox, l: Tree, r: Tree)
    requires Valid(l) && Valid(r)
    requires IsHullOf(b, Leaves(l) + Leaves(r))
    ensures Valid(Node(b, l, r))
  {
    ValidHull(l);
    ValidHull(r);
    HullOfHalves(b, Leaves(l), Leaves(r), l.bbox, r.bbox);
  }

  /** The root box of a valid tree encloses every leaf box. */
  lemma RootEnclosesLeaves(t: Tree)
    requires Valid(t)
    ensures forall i :: 0 <= i < |Leaves(t)| ==> Encloses(t.bbox, Leaves(t)[i])
  {
    ValidHull(t);
    HullEncloses(t.bbox, Leaves(t));
  }

  /** The combination of a range is the combination of the combinations of
      its two halves. */
  lemma HullOfHalves(b: BoundingBox, s: seq<BoundingBox>, t: seq<BoundingBox>, bl: BoundingBox, br: BoundingBox)
    requires |s| > 0 && |t| > 0
    requires IsHullOf(b, s + t) && IsHullOf(bl, s) && IsHullOf(br, t)
    ensures IsHullOf(b, [bl, br])
  {
    forall axis: Axis
      ensures b.Min(axis) == MinOf([bl, br], axis) && b.Max(axis) == MaxOf([bl, br], axis)
    {
      MinMaxOfConcat(s, t, axis);
      MinMaxOfPair(bl, br, axis);
    }
  }

  /** A sequence is the multiset union of its three pieces around [lo, hi). */
  lemma SplitMultiset(s: seq<BoundingBox>, lo: int, hi: int)
    requires 0 <= lo <= hi <= |s|
    ensures multiset(s) == multiset(s[..lo]) + multiset(s[lo..hi]) + multiset(s[hi..])
  {
    assert s == s[..lo] + s[lo..hi] + s[hi..];
  }

  lemma CancelMultiset(x: multiset<BoundingBox>, m1: multiset<BoundingBox>, m2: multiset<BoundingBox>,
                       y: multiset<BoundingBox>)
    requires x + m1 + y == x + m2 + y
    ensures m1 == m2
  {
    forall e
      ensures m1[e] == m2[e]
    {
      assert (x + m1 + y)[e] == (x + m2 + y)[e];
    }
  }

  /** Two sequences that are permutations of each other and agree outside
      [lo, hi) agree as multisets on [lo, hi). */
  lemma SegmentPermutation(s: seq<BoundingBox>, t: seq<BoundingBox>, lo: int, hi: int)
    requires 0 <= lo <= hi <= |s| == |t|
    requires multiset(s) == multiset(t)
    requires forall k :: 0 <= k < lo || hi <= k < |s| ==> s[k] == t[k]
    ensures multiset(s[lo..hi]) == multiset(t[lo..hi])
  {
    SplitMultiset(s, lo, hi);
    SplitMultiset(t, lo, hi);
    assert s[..lo] == t[..lo];
    assert s[hi..] == t[hi..];
    CancelMultiset(multiset(s[..lo]), multiset(s[lo..hi]), multiset(t[lo..hi]), multiset(s[hi..]));
  }

  lemma SuffixSlice(s: seq<BoundingBox>, t: seq<BoundingBox>, mid: int, hi: int)
    requires 0 <= mid <= hi <= |s| == |t|
    requires s[mid..] == t[mid..]
    ensures s[mid..hi] == t[mid..hi]
  {
    assert s[mid..hi] == s[mid..][..hi - mid];
    assert t[mid..hi] == t[mid..][..hi - mid];
  }

  /** If, in `sorted`, no box of [mid, hi) lies above one of [lo, mid), then
      the same holds between any reorderings of the two halves. */
  lemma HalvesStaySeparated(sorted: seq<BoundingBox>, left: seq<BoundingBox>, right: seq<BoundingBox>,
                            lo: int, mid: int, hi: int, axis: Axis)
    requires 0 <= lo <= mid <= hi <= |sorted|
    requires Ordered(sorted, lo, hi, axis)
    requires multiset(left) == multiset(sorted[lo..mid])
    requires multiset(right) == multiset(sorted[mid..hi])
    ensures forall p, q :: p in left && q in right ==> !BoundingBox.Compare(q, p, axis)
  {
    forall p, q | p in left && q in right
      ensures !BoundingBox.Compare(q, p, axis)
    {
      assert p in multiset(left);
      assert q in multiset(right);
      assert p in sorted[lo..mid];
      assert q in sorted[mid..hi];
      var i :| lo <= i < mid && sorted[i] == p;
      var j :| mid <= j < hi && sorted[j] == q;
    }
  }

  /** s[lo..hi) is ordered by the comparator: no later box lies above an
      earlier one along `axis`. */
  ghost predicate Ordered(s: seq<BoundingBox>, lo: int, hi: int, axis: Axis)
    requires 0 <= lo <= hi <= |s|
  {
    forall p, q :: lo <= p < q < hi ==> !BoundingBox.Compare(s[q], s[p], axis)
  }

  /** Exchanges a[j - 1] and a[j]. */
  method SwapDown(a: array<BoundingBox>, j: int)
    requires 0 < j < a.Length
    modifies a
    ensures a[j - 1] == old(a[j]) && a[j] == old(a[j - 1])
    ensures forall k :: 0 <= k < a.Length && k != j - 1 && k != j ==> a[k] == old(a[k])
    ensures multiset(a[..]) == multiset(old(a[..]))
  {
    a[j - 1], a[j] := a[j], a[j - 1];
  }

  /** Moves a[i] down into the ordered range a[lo..i]. */
  method InsertAlong(a: array<BoundingBox>, lo: int, i: int, axis: Axis)
    requires 0 <= lo <= i < a.Length
    requires Ordered(a[..], lo, i, axis)
    modifies a
    ensures Ordered(a[..], lo, i + 1, axis)
    ensures multiset(a[..]) == multiset(old(a[..]))
    ensures forall k :: 0 <= k < lo || i < k < a.Length ==> a[k] == old(a[k])
  {
    var j := i;
    while j > lo && BoundingBox.Compare(a[j], a[j - 1], axis)
      invariant lo <= j <= i
      invariant forall p, q :: lo <= p < q <= i && p != j && q != j ==> !BoundingBox.Compare(a[q], a[p], axis)
      invariant forall q :: j < q <= i ==> BoundingBox.Compare(a[j], a[q], axis)
      invariant multiset(a[..]) == multiset(old(a[..]))
      invariant forall k :: 0 <= k < lo || i < k < a.Length ==> a[k] == old(a[k])
    {
      SwapDown(a, j);
      j := j - 1;
    }
  }

  /** `t` is `s` with only the range [lo, hi) reordered: both agree
      outside the range and hold the same boxes inside it. */
  ghost predicate Reorders(s: seq<BoundingBox>, t: seq<BoundingBox>, lo: int, hi: int) {
    && 0 <= lo <= hi <= |s| == |t|
    && s[..lo] == t[..lo]
    && s[hi..] == t[hi..]
    && multiset(s[lo..hi]) == multiset(t[lo..hi])
  }

  /** A permutation of the whole sequence that changes nothing outside
      [lo, hi) reorders [lo, hi). */
  lemma FrameReorders(s: seq<BoundingBox>, t: seq<BoundingBox>, lo: int, hi: int)
    requires 0 <= lo <= hi <= |s| == |t|
    requires multiset(s) == multiset(t)
    requires forall k :: 0 <= k < lo || hi <= k < |s| ==> s[k] == t[k]
    ensures Reorders(s, t, lo, hi)
  {
    assert s[..lo] == t[..lo];
    assert s[hi..] == t[hi..];
    SegmentPermutation(s, t, lo, hi);
  }

  lemma ReordersTrans(s: seq<BoundingBox>, t: seq<BoundingBox>, u: seq<BoundingBox>, lo: int, hi: int)
    requires Reorders(s, t, lo, hi) && Reorders(t, u, lo, hi)
    ensures Reorders(s, u, lo, hi)
  {
  }

  /** Reordering [i, j) reorders any range around it. */
  lemma ReordersWiden(s: seq<BoundingBox>, t: seq<BoundingBox>, lo: int, i: int, j: int, hi: int)
    requires Reorders(s, t, i, j)
    requires 0 <= lo <= i && j <= hi <= |s|
    ensures Reorders(s, t, lo, hi)
  {
    assert s[..lo] == s[..i][..lo];
    assert t[..lo] == t[..i][..lo];
    assert s[hi..] == s[j..][hi - j..];
    assert t[hi..] == t[j..][hi - j..];
    assert s[lo..i] == s[..i][lo..] && t[lo..i] == t[..i][lo..];
    assert s[j..hi] == s[j..][..hi - j] && t[j..hi] == t[j..][..hi - j];
    assert s[lo..hi] == s[lo..i] + s[i..j] + s[j..hi];
    assert t[lo..hi] == t[lo..i] + t[i..j] + t[j..hi];
  }

  /** Orders a[lo..hi) by the comparator; the rest of the array is untouched. */
  method SortAlong(a: array<BoundingBox>, lo: int, hi: int, axis: Axis)
    requires 0 <= lo <= hi <= a.Length
    modifies a
    ensures Ordered(a[..], lo, hi, axis)
    ensures Reorders(old(a[..]), a[..], lo, hi)
  {
    if lo == hi {
      return;
    }
    var i := lo + 1;
    while i < hi
      invariant lo < i <= hi
      invariant Ordered(a[..], lo, i, axis)
      invariant multiset(a[..]) == multiset(old(a[..]))
      invariant forall k :: 0 <= k < lo || hi <= k < a.Length ==> a[k] == old(a[k])
    {
      InsertAlong(a, lo, i, axis);
      i := i + 1;
    }
    FrameReorders(old(a[..]), a[..], lo, hi);
  }

  /** Builds the hierarchy over the non-empty range a[lo..hi): one box is a
      leaf; otherwise the range is ordered along `axis`, split at
      lo + ceil(n/2), both halves are built along the next axis, and the node's
      box is Combine of the range. Only the order of a[lo..hi) changes. */
  method MakeBVHTree(a: array<BoundingBox>, lo: int, hi: int, axis: Axis) returns (t: Tree)
    requires 0 <= lo < hi <= a.Length
    modifies a
    ensures Reorders(old(a[..]), a[..], lo, hi)
    ensures Leaves(t) == a[lo..hi]
    ensures Valid(t)
    ensures BuiltAlong(t, axis)
    decreases hi - lo
  {
    if hi - lo == 1 {
      t := Leaf(a[lo]);
      return;
    }
    SortAlong(a, lo, hi, axis);
    ghost var sorted := a[..];
    var mid := lo + (hi - lo + 1) / 2;
    var l := MakeBVHTree(a, lo, mid, NextAxis(axis));
    ghost var afterLeft := a[..];
    var r := MakeBVHTree(a, mid, hi, NextAxis(axis));
    var box := BoundingBox.Combine(a, lo, hi);
    t := Node(box, l, r);
    SplitStepFacts(old(a[..]), sorted, afterLeft, a[..], lo, mid, hi, box, l, r, axis);
    assert a[lo..hi] == a[..][lo..hi];
    JoinValid(box, l, r);
  }

  /** A tree of the shape the build produces over n boxes has depth
      CeilLog2(n) + 1: the midpoint split keeps it balanced. */
  lemma {:induction false} BuiltDepth(t: Tree, axis: Axis)
    requires BuiltAlong(t, axis)
    ensures Depth(t) == CeilLog2(|Leaves(t)|) + 1
  {
    match t
    case Leaf(_) =>
    case Node(_, l, r) =>
      BuiltDepth(l, NextAxis(axis));
      BuiltDepth(r, NextAxis(axis));
      var n := |Leaves(t)|;
      HalvesDepth(n);
      assert |Leaves(r)| == n / 2 && |Leaves(l)| == n - n / 2;
  }

  /** Halving n >= 2 boxes: the larger half has n - n/2 boxes and
      CeilLog2 of it is one less than CeilLog2(n). */
  lemma HalvesDepth(n: nat)
    requires n >= 2
    ensures 1 <= n / 2 <= n - n / 2 < n
    ensures CeilLog2(n / 2) <= CeilLog2(n - n / 2)
    ensures CeilLog2(n) == 1 + CeilLog2(n - n / 2)
  {
    assert n - n / 2 == (n + 1) / 2;
    CeilLog2Monotone(n / 2, n - n / 2);
  }

  /** What one split step of the build establishes about the array, stated
      over its successive contents: before the step, after ordering the
      range, after building the left half and after building the right half. */
  lemma SplitStepFacts(before: seq<BoundingBox>, sorted: seq<BoundingBox>, afterLeft: seq<BoundingBox>,
                       after: seq<BoundingBox>, lo: int, mid: int, hi: int, b: BoundingBox, l: Tree, r: Tree,
                       axis: Axis)
    requires mid == lo + (hi - lo + 1) / 2 < hi
    requires Reorders(before, sorted, lo, hi)
    requires Ordered(sorted, lo, hi, axis)
    requires Reorders(sorted, afterLeft, lo, mid)
    requires Reorders(afterLeft, after, mid, hi)
    requires Leaves(l) == afterLeft[lo..mid] && Leaves(r) == after[mid..hi]
    requires BuiltAlong(l, NextAxis(axis)) && BuiltAlong(r, NextAxis(axis))
    ensures Reorders(before, after, lo, hi)
    ensures Leaves(Node(b, l, r)) == after[lo..hi]
    ensures BuiltAlong(Node(b, l, r), axis)
  {
    ReordersWiden(sorted, afterLeft, lo, lo, mid, hi);
    ReordersWiden(afterLeft, after, lo, mid, hi, hi);
    ReordersTrans(before, sorted, afterLeft, lo, hi);
    ReordersTrans(before, afterLeft, after, lo, hi);
    NodeLeaves(afterLeft, after, lo, mid, hi, b, l, r);
    SplitKeepsHalvesApart(sorted, afterLeft, after, lo, mid, hi, l, r, axis);
    NodeBuiltAlong(b, l, r, axis);
  }

  /** The node's leaves are the left half then the right half. */
  lemma NodeLeaves(afterLeft: seq<BoundingBox>, after: seq<BoundingBox>, lo: int, mid: int, hi: int,
                   b: BoundingBox, l: Tree, r: Tree)
    requires 0 <= lo <= mid <= hi <= |afterLeft| == |after|
    requires after[..mid] == afterLeft[..mid]
    requires Leaves(l) == afterLeft[lo..mid] && Leaves(r) == after[mid..hi]
    ensures Leaves(Node(b, l, r)) == after[lo..hi]
  {
    assert after[lo..mid] == after[..mid][lo..];
    assert afterLeft[lo..mid] == afterLeft[..mid][lo..];
    assert after[lo..hi] == after[lo..mid] + after[mid..hi];
  }

  /** A node whose halves are balanced and apart, each built along the next
      axis, is built along `axis`. */
  lemma NodeBuiltAlong(b: BoundingBox, l: Tree, r: Tree, axis: Axis)
    requires |Leaves(r)| == (|Leaves(l)| + |Leaves(r)|) / 2
    requires forall p, q :: p in Leaves(l) && q in Leaves(r) ==> !BoundingBox.Compare(q, p, axis)
    requires BuiltAlong(l, NextAxis(axis)) && BuiltAlong(r, NextAxis(axis))
    ensures BuiltAlong(Node(b, l, r), axis)
  {
  }

  /** The halves built after ordering stay apart along the axis. */
  lemma SplitKeepsHalvesApart(sorted: seq<BoundingBox>, afterLeft: seq<BoundingBox>, after: seq<BoundingBox>,
                              lo: int, mid: int, hi: int, l: Tree, r: Tree, axis: Axis)
    requires lo <= mid <= hi
    requires Reorders(sorted, afterLeft, lo, mid)
    requires Reorders(afterLeft, after, mid, hi)
    requires Ordered(sorted, lo, hi, axis)
    requires Leaves(l) == afterLeft[lo..mid] && Leaves(r) == after[mid..hi]
    ensures forall p, q :: p in Leaves(l) && q in Leaves(r) ==> !BoundingBox.Compare(q, p, axis)
  {
    var left, right := Leaves(l), Leaves(r);
    assert multiset(left) == multiset(sorted[lo..mid]);
    SuffixSlice(sorted, afterLeft, mid, hi);
    assert multiset(right) == multiset(sorted[mid..hi]);
    HalvesStaySeparated(sorted, left, right, lo, mid, hi, axis);
  }

  /** A permutation of two distinct boxes is one of their two orders. */
  lemma PairPermutation(s: seq<BoundingBox>, x: BoundingBox, y: BoundingBox)
    requires x != y && multiset(s) == multiset([x, y])
    ensures s == [x, y] || s == [y, x]
  {
    assert |s| == |multiset(s)| == 2;
    assert s[0] in multiset(s) && s[1] in multiset(s);
  }

  /** A tree built over two distinct boxes has depth 2 and holds both. */
  lemma TwoLeafTree(t: Tree, axis: Axis, x: BoundingBox, y: BoundingBox)
    requires BuiltAlong(t, axis)
    requires x != y && multiset(Leaves(t)) == multiset([x, y])
    ensures Depth(t) == 2
    ensures Leaves(t) == [x, y] || Leaves(t) == [y, x]
  {
    PairPermutation(Leaves(t), x, y);
    BuiltDepth(t, axis);
    assert CeilLog2(2) == 1;
  }

  /** Builds the hierarchy over two distinct boxes along X. */
  method BuildPair(box1: BoundingBox, box2: BoundingBox) returns (tree: Tree)
    requires box1 != box2
    ensures Depth(tree) == 2
    ensures Leaves(tree) == [box1, box2] || Leaves(tree) == [box2, box1]
  {
    var boxes := new BoundingBox[2][box1, box2];
    ghost var initial := boxes[..];
    assert initial == [box1, box2] && initial[0..2] == initial;
    tree := MakeBVHTree(boxes, 0, 2, X);
    TwoLeafTree(tree, X, box1, box2);
  }

  /** Two boxes lying along the x axis, built along X: a tree of depth 2
      whose two leaves carry the two input boxes' surface indices. */
  method TwoBoxExample() returns (depth: int, indices: multiset<int>)
    ensures depth == 2
    ensures indices == multiset{0, 1}
  {
    var box1 := new BoundingBox(-3.0, -1.0, 0.0, 2.0, 0.0, 2.0);
    var box2 := new BoundingBox(1.0, 3.0, 0.0, 2.0, 0.0, 2.0);
    box1.SetSurfaceIndex(0);
    box2.SetSurfaceIndex(1);
    var tree := BuildPair(box1, box2);
    var leaves := Leaves(tree);
    depth := Depth(tree);
    indices := multiset{leaves[0].GetSurfaceIndex(), leaves[1].GetSurfaceIndex()};
  }
}
