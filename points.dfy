/**
 * The point container of point/points.go.
 *
 * A `*Points3D` is an `array<Point3D>`. A Go sub-slice such as `points[start:end]` shares its
 * backing array, so it is a `View`: a window `[lo, hi)` into a backing array. A `plane` pairs a
 * split dimension with such a window, so `plane.Swap` writes into the storage the window shares.
 */
module Points {

  import opened Point
  import opened KdTree

  /** `p.Raw()`: the elements, or the empty sequence for a nil receiver. */
  function Raw(p: array?<Point3D>): (r: seq<Point3D>)
    reads p
    ensures p == null ==> r == []
    ensures p != null ==> |r| == p.Length && forall i :: 0 <= i < |r| ==> r[i] == p[i]
  {
    if p == null || p.Length == 0 then [] else p[..]
  }

  /** `p.Len()`. */
  function Len(p: array<Point3D>): (n: nat)
    reads p
    ensures n == |Raw(p)|
  {
    p.Length
  }

  /** `p.Index(i)`, defined exactly where the Go slice index does not panic. */
  function Index(p: array<Point3D>, i: int): (r: Point3D)
    requires 0 <= i < Len(p)
    reads p
    ensures r == Raw(p)[i]
  {
    p[i]
  }

  /** The copy `p.Copy()` makes of each element: same coordinates, no normal. */
  function CopyOf(points: seq<Point3D>): (r: seq<Point3D>)
  {
    seq(|points|, i requires 0 <= i < |points| => At(points[i].x, points[i].y, points[i].z))
  }

  /** A copy has the original's length and coordinates, and drops every normal. */
  lemma CopyKeepsCoordinates(points: seq<Point3D>)
    ensures |CopyOf(points)| == |points|
    ensures forall i :: 0 <= i < |points| ==>
      SameCoordinates(CopyOf(points)[i], points[i]) &&
      CopyOf(points)[i].nx == 0.0 && CopyOf(points)[i].ny == 0.0 && CopyOf(points)[i].nz == 0.0
  {
  }

  /** `p.Copy()` for a receiver holding `points`: a fresh buffer of fresh points. */
  method Copy(points: seq<Point3D>) returns (copy: array<Point3D>)
    ensures fresh(copy)
    ensures copy[..] == CopyOf(points)
  {
    copy := new Point3D[|points|];
    for i := 0 to |points|
      invariant forall k :: 0 <= k < i ==> copy[k] == CopyOf(points)[k]
    {
      copy[i] := At(points[i].x, points[i].y, points[i].z);
    }
  }

  /** A Go slice header: the window `[lo, hi)` of a shared backing array. */
  datatype View = View(buf: array<Point3D>, lo: nat, hi: nat)
  {
    ghost predicate Valid()
      reads buf
    {
      lo <= hi <= buf.Length
    }

    function Len(): nat
    {
      if lo <= hi then hi - lo else 0
    }

    function Elements(): seq<Point3D>
      requires Valid()
      reads buf
    {
      buf[lo..hi]
    }
  }

  /** A `*Points3D` seen as a window over all of its elements. */
  function Whole(p: array<Point3D>): (v: View)
    reads p
    ensures v.Valid() && v.Elements() == p[..]
  {
    View(p, 0, p.Length)
  }

  predicate OutOfBounds(start: int, end: int, len: nat)
  {
    start < 0 || end > len || start >= end
  }

  /**
   * The window `[start, end)` of `v`, sharing its storage; out of bounds, an empty window, as
   * Go returns a fresh empty slice.
   */
  function SubView(v: View, start: int, end: int): View
  {
    if OutOfBounds(start, end, v.Len()) then View(v.buf, v.lo, v.lo)
    else View(v.buf, v.lo + start, v.lo + end)
  }

  /** `p.Slice(start, end)`. */
  function Slice(p: array<Point3D>, start: int, end: int): View
    reads p
  {
    SubView(Whole(p), start, end)
  }

  /**
   * A slice is empty out of bounds; otherwise it holds elements `start .. end - 1` in order and
   * shares the receiver's storage.
   */
  lemma SliceElements(v: View, start: int, end: int)
    requires v.Valid()
    ensures SubView(v, start, end).Valid() && SubView(v, start, end).buf == v.buf
    ensures OutOfBounds(start, end, v.Len()) ==> SubView(v, start, end).Elements() == []
    ensures !OutOfBounds(start, end, v.Len()) ==>
      |SubView(v, start, end).Elements()| == end - start &&
      SubView(v, start, end).Elements() == v.Elements()[start..end]
  {
  }

  /** `plane`: a window of points together with the dimension it is split on. */
  datatype Plane = Plane(dim: int, points: View)

  /** `plane.Less(i, j)`. */
  predicate Less(pl: Plane, i: int, j: int)
    requires pl.points.Valid()
    requires 0 <= i < pl.points.Len() && 0 <= j < pl.points.Len()
    reads pl.points.buf
  {
    Compare(pl.points.Elements()[i], pl.points.Elements()[j], pl.dim) < 0.0
  }

  /** `Less` orders two points by their coordinate along the plane's dimension. */
  lemma LessAlongDimension(pl: Plane, i: int, j: int)
    requires pl.points.Valid() && 0 <= pl.dim < 3
    requires 0 <= i < pl.points.Len() && 0 <= j < pl.points.Len()
    ensures Less(pl, i, j) <==>
      ToArray(pl.points.Elements()[i])[pl.dim] < ToArray(pl.points.Elements()[j])[pl.dim]
    ensures !(Less(pl, i, j) && Less(pl, j, i))
  {
    CompareIsCoordinateDifference(pl.points.Elements()[i], pl.points.Elements()[j], pl.dim);
  }

  /** `plane.Slice(start, end)`. */
  function PlaneSlice(pl: Plane, start: int, end: int): Plane
  {
    Plane(pl.dim, SubView(pl.points, start, end))
  }

  /** `plane.Slice` keeps the dimension and slices its points by the same bounds rule. */
  lemma PlaneSliceElements(pl: Plane, start: int, end: int)
    requires pl.points.Valid()
    ensures PlaneSlice(pl, start, end).dim == pl.dim
    ensures PlaneSlice(pl, start, end).points == SubView(pl.points, start, end)
    ensures PlaneSlice(pl, start, end).points.Valid()
    ensures OutOfBounds(start, end, pl.points.Len()) ==> PlaneSlice(pl, start, end).points.Elements() == []
    ensures !OutOfBounds(start, end, pl.points.Len()) ==>
      PlaneSlice(pl, start, end).points.Elements() == pl.points.Elements()[start..end]
  {
    SliceElements(pl.points, start, end);
  }

  /** `s` with the elements at `i` and `j` exchanged. */
  function Swapped<T>(s: seq<T>, i: nat, j: nat): (r: seq<T>)
    requires i < |s| && j < |s|
  {
    s[i := s[j]][j := s[i]]
  }

  /** Swapping exchanges the two elements, leaves every other one, and keeps the multiset. */
  lemma SwappedExchanges<T>(s: seq<T>, i: nat, j: nat)
    requires i < |s| && j < |s|
    ensures |Swapped(s, i, j)| == |s|
    ensures Swapped(s, i, j)[i] == s[j] && Swapped(s, i, j)[j] == s[i]
    ensures forall k :: 0 <= k < |s| && k != i && k != j ==> Swapped(s, i, j)[k] == s[k]
    ensures multiset(Swapped(s, i, j)) == multiset(s)
  {
  }

  /** Swapping the same two positions twice restores the sequence. */
  lemma SwapTwice<T>(s: seq<T>, i: nat, j: nat)
    requires i < |s| && j < |s|
    ensures Swapped(Swapped(s, i, j), i, j) == s
  {
  }

  /**
   * `plane.Swap(i, j)`: with either index outside the window nothing changes; otherwise the two
   * elements of the shared storage are exchanged.
   */
  method Swap(pl: Plane, i: int, j: int)
    requires pl.points.Valid()
    modifies pl.points.buf
    ensures pl.points.Valid()
    ensures !(0 <= i < pl.points.Len() && 0 <= j < pl.points.Len()) ==>
      pl.points.buf[..] == old(pl.points.buf[..])
    ensures 0 <= i < pl.points.Len() && 0 <= j < pl.points.Len() ==>
      pl.points.buf[..] == Swapped(old(pl.points.buf[..]), pl.points.lo + i, pl.points.lo + j) &&
      pl.points.Elements() == Swapped(old(pl.points.Elements()), i, j)
  {
    var v := pl.points;
    if i < 0 || i >= v.Len() {
      return;
    }
    if j < 0 || j >= v.Len() {
      return;
    }
    v.buf[v.lo + i], v.buf[v.lo + j] := v.buf[v.lo + j], v.buf[v.lo + i];
  }
}
