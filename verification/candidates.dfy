/**
 * Candidate ranking and plate-boundary selection of `detect_number_plate`
 * (main.py:28-41).
 *
 * OpenCV's geometry (contourArea, arcLength, approxPolyDP, boundingRect) is
 * not modelled: each contour arrives already reduced to the three values the
 * script's own logic reads.
 */
module Candidates {
  import opened Wrappers

  /** An axis-aligned box `(x, y, w, h)` as `cv2.boundingRect` returns it. */
  datatype Box = Box(x: nat, y: nat, w: nat, h: nat)

  /**
   * A contour reduced to its ranking key (`cv2.contourArea`), the number of
   * vertices of its polygon approximation (`len(approx)`) and the bounding box
   * of that approximation.
   */
  datatype Contour = Contour(area: int, approxLen: nat, box: Box)

  /** Only this many of the largest contours are examined (`[:10]`). */
  const MaxCandidates: nat := 10

  /** A plate boundary is an approximation with exactly this many vertices. */
  const PlateVertices: nat := 4

  function Min(a: int, b: int): int
  {
    if a <= b then a else b
  }

  predicate IsQuad(c: Contour)
  {
    c.approxLen == PlateVertices
  }

  /** Largest area first. */
  predicate NonIncreasing(s: seq<Contour>)
  {
    forall i, j :: 0 <= i < j < |s| ==> s[j].area <= s[i].area
  }

  /** The contours of `s` whose area is `a`, in the order of `s`. */
  function WithArea(s: seq<Contour>, a: int): seq<Contour>
  {
    if s == [] then []
    else (if s[0].area == a then [s[0]] else []) + WithArea(s[1..], a)
  }

  // ---------------------------------------------------------------------
  // Ranking: sorted(contours, key=cv2.contourArea, reverse=True)[:10]
  // ---------------------------------------------------------------------

  /**
   * Inserts `c` in front of the first element whose area is not larger, so
   * that `c` precedes the contours of equal area that came after it.
   */
  function Insert(c: Contour, s: seq<Contour>): seq<Contour>
  {
    if s == [] || c.area >= s[0].area then [c] + s
    else [s[0]] + Insert(c, s[1..])
  }

  /**
   * Python's stable `sorted(..., reverse=True)` on the area key: a stable
   * insertion sort, largest area first.
   */
  function RankByArea(cs: seq<Contour>): seq<Contour>
  {
    if cs == [] then [] else Insert(cs[0], RankByArea(cs[1..]))
  }

  /** The ranked list cut to its first `MaxCandidates` elements. */
  function TopCandidates(cs: seq<Contour>): seq<Contour>
  {
    var ranked := RankByArea(cs);
    ranked[..Min(MaxCandidates, |ranked|)]
  }

  lemma {:induction false} InsertIsPermutation(c: Contour, s: seq<Contour>)
    ensures multiset(Insert(c, s)) == multiset(s) + multiset{c}
  {
    if s == [] || c.area >= s[0].area {
    } else {
      InsertIsPermutation(c, s[1..]);
      assert s == [s[0]] + s[1..];
    }
  }

  lemma {:induction false} InsertKeepsOrder(c: Contour, s: seq<Contour>)
    requires NonIncreasing(s)
    ensures NonIncreasing(Insert(c, s))
  {
    if s == [] || c.area >= s[0].area {
    } else {
      var t := Insert(c, s[1..]);
      InsertKeepsOrder(c, s[1..]);
      InsertIsPermutation(c, s[1..]);
      forall k | 0 <= k < |t|
        ensures t[k].area <= s[0].area
      {
        assert t[k] in multiset(s[1..]) + multiset{c};
      }
    }
  }

  lemma WithAreaCons(x: Contour, t: seq<Contour>, a: int)
    ensures WithArea([x] + t, a) == (if x.area == a then [x] else []) + WithArea(t, a)
  {
    assert ([x] + t)[1..] == t;
  }

  lemma {:induction false} WithAreaAppend(s: seq<Contour>, t: seq<Contour>, a: int)
    ensures WithArea(s + t, a) == WithArea(s, a) + WithArea(t, a)
  {
    if s == [] {
      assert s + t == t;
    } else {
      WithAreaAppend(s[1..], t, a);
      assert s + t == [s[0]] + (s[1..] + t);
      WithAreaCons(s[0], s[1..] + t, a);
    }
  }

  lemma {:induction false} InsertIsStable(c: Contour, s: seq<Contour>, a: int)
    ensures WithArea(Insert(c, s), a) == (if c.area == a then [c] else []) + WithArea(s, a)
  {
    if s == [] || c.area >= s[0].area {
      WithAreaCons(c, s, a);
    } else {
      InsertIsStable(c, s[1..], a);
      WithAreaCons(s[0], Insert(c, s[1..]), a);
      WithAreaCons(s[0], s[1..], a);
      assert s == [s[0]] + s[1..];
    }
  }

  /** The ranking reorders the contours and drops or duplicates none. */
  lemma {:induction false} RankByAreaIsPermutation(cs: seq<Contour>)
    ensures multiset(RankByArea(cs)) == multiset(cs)
    ensures |RankByArea(cs)| == |cs|
  {
    if cs != [] {
      RankByAreaIsPermutation(cs[1..]);
      InsertIsPermutation(cs[0], RankByArea(cs[1..]));
      assert cs == [cs[0]] + cs[1..];
    }
    assert |multiset(RankByArea(cs))| == |RankByArea(cs)|;
  }

  /** The ranking puts the largest area first. */
  lemma {:induction false} RankByAreaIsSorted(cs: seq<Contour>)
    ensures NonIncreasing(RankByArea(cs))
  {
    if cs != [] {
      RankByAreaIsSorted(cs[1..]);
      InsertKeepsOrder(cs[0], RankByArea(cs[1..]));
    }
  }

  /** The sort is stable: contours of equal area keep their extraction order. */
  lemma {:induction false} RankByAreaIsStable(cs: seq<Contour>, a: int)
    ensures WithArea(RankByArea(cs), a) == WithArea(cs, a)
  {
    if cs != [] {
      RankByAreaIsStable(cs[1..], a);
      InsertIsStable(cs[0], RankByArea(cs[1..]), a);
    }
  }

  lemma WithAreaHead(s: seq<Contour>)
    requires s != []
    ensures WithArea(s, s[0].area) != [] && WithArea(s, s[0].area)[0] == s[0]
  {
  }

  lemma {:induction false} WithAreaNonEmpty(s: seq<Contour>, a: int)
    requires WithArea(s, a) != []
    ensures exists i :: 0 <= i < |s| && s[i].area == a
  {
    if s[0].area != a {
      WithAreaNonEmpty(s[1..], a);
      var i :| 0 <= i < |s[1..]| && s[1..][i].area == a;
      assert s[i + 1].area == a;
    }
  }

  /** Two largest-first lists with the same per-area orders start alike. */
  lemma SameHead(x: seq<Contour>, y: seq<Contour>)
    requires x != [] && NonIncreasing(x) && NonIncreasing(y)
    requires WithArea(x, x[0].area) == WithArea(y, x[0].area)
    requires y != [] ==> WithArea(x, y[0].area) == WithArea(y, y[0].area)
    ensures y != [] && x[0] == y[0]
  {
    WithAreaHead(x);
    WithAreaNonEmpty(y, x[0].area);
    WithAreaHead(y);
    WithAreaNonEmpty(x, y[0].area);
  }

  lemma SameTail(x: seq<Contour>, y: seq<Contour>, a: int)
    requires x != [] && y != [] && x[0] == y[0]
    requires WithArea(x, a) == WithArea(y, a)
    ensures WithArea(x[1..], a) == WithArea(y[1..], a)
  {
    var head := if x[0].area == a then [x[0]] else [];
    assert x == [x[0]] + x[1..] && y == [y[0]] + y[1..];
    WithAreaCons(x[0], x[1..], a);
    WithAreaCons(y[0], y[1..], a);
    assert (head + WithArea(x[1..], a))[|head|..] == WithArea(x[1..], a);
    assert (head + WithArea(y[1..], a))[|head|..] == WithArea(y[1..], a);
  }

  /**
   * Largest-first order together with the per-area orders fixes a list
   * completely: any stable descending sort of the same contours gives the
   * very list `RankByArea` gives.
   */
  lemma {:induction false} SortedByAreaIsUnique(x: seq<Contour>, y: seq<Contour>)
    requires NonIncreasing(x) && NonIncreasing(y)
    requires forall a :: WithArea(x, a) == WithArea(y, a)
    ensures x == y
    decreases |x|
  {
    if x == [] {
      if y != [] {
        WithAreaHead(y);
      }
    } else {
      SameHead(x, y);
      forall a
        ensures WithArea(x[1..], a) == WithArea(y[1..], a)
      {
        SameTail(x, y, a);
      }
      SortedByAreaIsUnique(x[1..], y[1..]);
      assert x == [x[0]] + x[1..] && y == [y[0]] + y[1..];
    }
  }

  /** Any largest-first list with the per-area orders of `cs` is `RankByArea(cs)`. */
  lemma RankByAreaIsTheStableSort(cs: seq<Contour>, r: seq<Contour>)
    requires NonIncreasing(r)
    requires forall a :: WithArea(r, a) == WithArea(cs, a)
    ensures r == RankByArea(cs)
  {
    RankByAreaIsSorted(cs);
    forall a
      ensures WithArea(RankByArea(cs), a) == WithArea(r, a)
    {
      RankByAreaIsStable(cs, a);
    }
    SortedByAreaIsUnique(RankByArea(cs), r);
  }

  lemma {:induction false} WithAreaOfPrefix(s: seq<Contour>, k: nat, a: int)
    requires k <= |s|
    ensures WithArea(s[..k], a) <= WithArea(s, a)
  {
    assert s == s[..k] + s[k..];
    WithAreaAppend(s[..k], s[k..], a);
  }

  /** Cutting a largest-first list leaves nothing in the tail larger than the head. */
  lemma DroppedAreNoLarger(ranked: seq<Contour>, n: nat)
    requires n <= |ranked| && NonIncreasing(ranked)
    ensures forall d, k :: d in ranked[n..] && k in ranked[..n] ==> d.area <= k.area
  {
    forall d, k | d in ranked[n..] && k in ranked[..n]
      ensures d.area <= k.area
    {
      var j :| 0 <= j < |ranked[n..]| && ranked[n..][j] == d;
      var i :| 0 <= i < n && ranked[..n][i] == k;
      assert ranked[n + j] == d && ranked[i] == k;
    }
  }

  /**
   * What `sorted(...)[:10]` keeps: `min(10, n)` contours, largest first, all
   * taken from the input; whatever is dropped is no larger than anything kept;
   * and for each area the kept contours are the first ones of that area in
   * extraction order.
   */
  lemma TopCandidatesSpec(cs: seq<Contour>)
    ensures |TopCandidates(cs)| == Min(MaxCandidates, |cs|)
    ensures NonIncreasing(TopCandidates(cs))
    ensures multiset(TopCandidates(cs)) <= multiset(cs)
    ensures forall d, k :: d in multiset(cs) - multiset(TopCandidates(cs)) && k in TopCandidates(cs)
                           ==> d.area <= k.area
    ensures forall a :: WithArea(TopCandidates(cs), a) <= WithArea(cs, a)
  {
    var ranked := RankByArea(cs);
    var n := Min(MaxCandidates, |ranked|);
    var top, rest := ranked[..n], ranked[n..];
    RankByAreaIsPermutation(cs);
    RankByAreaIsSorted(cs);
    assert ranked == top + rest;
    assert multiset(cs) == multiset(top) + multiset(rest);
    DroppedAreNoLarger(ranked, n);
    forall d | d in multiset(cs) - multiset(top)
      ensures d in rest
    {
    }
    forall a
      ensures WithArea(top, a) <= WithArea(cs, a)
    {
      WithAreaOfPrefix(ranked, n, a);
      RankByAreaIsStable(cs, a);
    }
  }

  // ---------------------------------------------------------------------
  // Selection: the first candidate whose approximation has 4 vertices
  // ---------------------------------------------------------------------

  /** Index of the first 4-vertex candidate, or None if there is none. */
  function FirstQuad(cs: seq<Contour>): (r: Option<nat>)
    ensures r.Some? ==> r.value < |cs| && IsQuad(cs[r.value])
    ensures r.Some? ==> forall j :: 0 <= j < r.value ==> !IsQuad(cs[j])
    ensures r.None? <==> forall j :: 0 <= j < |cs| ==> !IsQuad(cs[j])
  {
    if cs == [] then None
    else if IsQuad(cs[0]) then Some(0)
    else match FirstQuad(cs[1..])
      case None => None
      case Some(k) => Some(k + 1)
  }

  /** The plate boundary chosen from the ranked candidates. */
  function Boundary(cs: seq<Contour>): Option<Contour>
  {
    match FirstQuad(cs)
    case None => None
    case Some(i) => Some(cs[i])
  }

  /**
   * The loop of main.py:30-37: walk the ranked candidates and stop at the
   * first whose approximation has exactly four vertices.
   */
  method SelectBoundary(candidates: seq<Contour>) returns (plate: Option<Contour>)
    ensures plate == Boundary(candidates)
    ensures plate.None? <==> forall j :: 0 <= j < |candidates| ==> !IsQuad(candidates[j])
    ensures plate.Some? ==> exists i :: 0 <= i < |candidates| && candidates[i] == plate.value
                                        && IsQuad(candidates[i])
                                        && forall j :: 0 <= j < i ==> !IsQuad(candidates[j])
  {
    plate := None;
    var i := 0;
    while i < |candidates|
      invariant 0 <= i <= |candidates|
      invariant forall j :: 0 <= j < i ==> !IsQuad(candidates[j])
    {
      if candidates[i].approxLen == PlateVertices {
        plate := Some(candidates[i]);
        break;
      }
      i := i + 1;
    }
    if plate.Some? {
      assert FirstQuad(candidates) == Some(i);
    }
  }

  /** A first 4-vertex contour of a prefix is the first one of the whole. */
  lemma BoundaryOfPrefix(p: seq<Contour>, s: seq<Contour>)
    requires p <= s
    requires Boundary(p).Some?
    ensures Boundary(s) == Boundary(p)
  {
    var i := FirstQuad(p).value;
    assert s[i] == p[i];
    assert FirstQuad(s).Some?;
  }

  /** The first 4-vertex contour of `s` is also the first among those of its area. */
  lemma {:induction false} BoundaryOfWithArea(s: seq<Contour>)
    requires Boundary(s).Some?
    ensures Boundary(WithArea(s, Boundary(s).value.area)) == Boundary(s)
  {
    var q := Boundary(s).value;
    assert s == [s[0]] + s[1..];
    WithAreaCons(s[0], s[1..], q.area);
    if IsQuad(s[0]) {
      assert q == s[0];
    } else {
      assert FirstQuad(s[1..]).Some?;
      assert Boundary(s[1..]) == Some(q);
      BoundaryOfWithArea(s[1..]);
      var w := WithArea(s[1..], q.area);
      if s[0].area == q.area {
        var w' := [s[0]] + w;
        assert w'[1..] == w;
        var k := FirstQuad(w).value;
        assert FirstQuad(w') == Some(k + 1);
        assert w'[k + 1] == w[k] == q;
        assert WithArea(s, q.area) == w';
        assert Boundary(w') == Some(q);
      } else {
        assert WithArea(s, q.area) == w;
      }
    }
  }

  /**
   * The tie-break as the script's ordering implies: the selected boundary has
   * the largest area of all 4-vertex contours of the image, and among those of
   * that area it is the first in extraction order.
   */
  lemma SelectedIsLargestQuad(cs: seq<Contour>)
    requires Boundary(TopCandidates(cs)).Some?
    ensures var q := Boundary(TopCandidates(cs)).value;
            && q in cs && IsQuad(q)
            && (forall c :: c in cs && IsQuad(c) ==> c.area <= q.area)
            && Boundary(WithArea(cs, q.area)) == Some(q)
  {
    var top := TopCandidates(cs);
    var i := FirstQuad(top).value;
    var q := top[i];
    TopCandidatesSpec(cs);
    assert q in multiset(cs);
    forall c | c in cs && IsQuad(c)
      ensures c.area <= q.area
    {
      if c in top {
        var j :| 0 <= j < |top| && top[j] == c;
        assert i <= j;
      } else {
        assert c in multiset(cs) - multiset(top);
      }
    }
    BoundaryOfWithArea(top);
    assert WithArea(top, q.area) <= WithArea(cs, q.area);
    BoundaryOfPrefix(WithArea(top, q.area), WithArea(cs, q.area));
  }
}
