/**
 * Candidate-region filtering (PlateDetector.detect_plate_areas). The contours found by
 * OpenCV are the input: for each one its contour area and its bounding rectangle. A
 * contour is kept when its area, width, height and aspect ratio pass the configured
 * thresholds; the kept rectangles are stably sorted by w*h, largest first, and the
 * first MaxPlateCandidates are returned.
 */
module RegionDetector {
  import opened Config

  /** A width or height reported by cv2.boundingRect, which is never below one pixel. */
  type Extent = n: int | n >= 1 witness 1

  /** A bounding rectangle (x, y, w, h). */
  datatype Box = Box(x: nat, y: nat, w: Extent, h: Extent)

  /** One contour as the detector sees it: cv2.contourArea and cv2.boundingRect. */
  datatype Contour = Contour(area: real, rect: Box)

  /** The sort key rect[2] * rect[3]. */
  function BoxArea(b: Box): int { b.w * b.h }

  /** w / h, computed in true division. */
  function AspectRatio(b: Box): real { b.w as real / b.h as real }

  /** The filter of the contour loop. */
  predicate IsPlateShaped(c: Contour) {
    c.area > MinPlateArea
    && MinAspectRatio <= AspectRatio(c.rect) <= MaxAspectRatio
    && c.rect.w > MinPlateWidth && c.rect.h > MinPlateHeight
  }

  /** The rectangles of the plate-shaped contours, in contour order. */
  function Candidates(cs: seq<Contour>): seq<Box> {
    if cs == [] then []
    else
      var last := cs[|cs| - 1];
      Candidates(cs[..|cs| - 1]) + (if IsPlateShaped(last) then [last.rect] else [])
  }

  /** Inserts b in front of the first element whose area does not exceed b's. */
  function InsertByArea(b: Box, t: seq<Box>): seq<Box> {
    if t == [] then [b]
    else if BoxArea(t[0]) <= BoxArea(b) then [b] + t
    else [t[0]] + InsertByArea(b, t[1..])
  }

  /**
   * list.sort(key=lambda rect: rect[2]*rect[3], reverse=True): Python's sort is stable, also
   * when reversed, so equal areas keep their input order (SortIsPythonSort shows that this is
   * the only order with both properties).
   */
  function SortByAreaDesc(s: seq<Box>): seq<Box> {
    if s == [] then [] else InsertByArea(s[0], SortByAreaDesc(s[1..]))
  }

  /** What detect_plate_areas returns for the given contours. */
  function PlateAreas(cs: seq<Contour>): seq<Box> {
    var sorted := SortByAreaDesc(Candidates(cs));
    sorted[..Min(MaxPlateCandidates, |sorted|)]
  }

  ghost predicate SortedByAreaDesc(s: seq<Box>) {
    forall i, j :: 0 <= i < j < |s| ==> BoxArea(s[i]) >= BoxArea(s[j])
  }

  /** The boxes of s whose area is a, in the order of s. */
  function WithArea(s: seq<Box>, a: int): seq<Box> {
    if s == [] then [] else (if BoxArea(s[0]) == a then [s[0]] else []) + WithArea(s[1..], a)
  }

  lemma {:induction false} WithAreaMembers(s: seq<Box>, a: int, b: Box)
    ensures b in WithArea(s, a) <==> b in s && BoxArea(b) == a
  {
    if s != [] {
      WithAreaMembers(s[1..], a, b);
      assert s == [s[0]] + s[1..];
    }
  }

  // ----- the filter -----

  lemma AtLeastQuotient(c: real, w: real, h: real)
    requires h > 0.0
    ensures c <= w / h <==> c * h <= w
  {
    var r := w / h;
    assert r * h == w;
    if c <= r {
      assert (r - c) * h >= 0.0;
    } else {
      assert (c - r) * h > 0.0;
    }
  }

  lemma AtMostQuotient(c: real, w: real, h: real)
    requires h > 0.0
    ensures w / h <= c <==> w <= c * h
  {
    var r := w / h;
    assert r * h == w;
    if r <= c {
      assert (c - r) * h >= 0.0;
    } else {
      assert (r - c) * h > 0.0;
    }
  }

  lemma LowerRatioBound(wi: int, hi: int)
    requires wi >= 1 && hi >= 1
    ensures 2.0 <= wi as real / hi as real <==> 2 * hi <= wi
  {
    AtLeastQuotient(2.0, wi as real, hi as real);
  }

  lemma UpperRatioBound(wi: int, hi: int)
    requires wi >= 1 && hi >= 1
    ensures wi as real / hi as real <= 4.5 <==> 2 * wi <= 9 * hi
  {
    AtMostQuotient(4.5, wi as real, hi as real);
  }

  /** Since both bounds are exact binary fractions, the ratio test is an integer test. */
  lemma AspectRatioExact(b: Box)
    ensures MinAspectRatio <= AspectRatio(b) <= MaxAspectRatio <==> 2 * b.h <= b.w && 2 * b.w <= 9 * b.h
  {
    LowerRatioBound(b.w, b.h);
    UpperRatioBound(b.w, b.h);
  }

  /** A rectangle is a candidate exactly when it belongs to a plate-shaped contour. */
  lemma {:induction false} CandidatesMembers(cs: seq<Contour>)
    ensures forall b :: b in Candidates(cs) <==> exists c :: c in cs && IsPlateShaped(c) && c.rect == b
  {
    if cs != [] {
      var init, last := cs[..|cs| - 1], cs[|cs| - 1];
      CandidatesMembers(init);
      assert cs == init + [last];
      forall b ensures b in Candidates(cs) <==> exists c :: c in cs && IsPlateShaped(c) && c.rect == b {
        if b in Candidates(cs) && b !in Candidates(init) {
          assert last in cs;
        }
        if exists c :: c in cs && IsPlateShaped(c) && c.rect == b {
          var c :| c in cs && IsPlateShaped(c) && c.rect == b;
          if c != last {
            assert c in init;
          }
        }
      }
    }
  }

  // ----- the sort -----

  lemma {:induction false} InsertByAreaElements(b: Box, t: seq<Box>)
    ensures multiset(InsertByArea(b, t)) == multiset(t) + multiset{b}
  {
    if t != [] && BoxArea(t[0]) > BoxArea(b) {
      var r := InsertByArea(b, t[1..]);
      InsertByAreaElements(b, t[1..]);
      assert InsertByArea(b, t) == [t[0]] + r;
      assert multiset([t[0]] + r) == multiset{t[0]} + multiset(r);
      assert t == [t[0]] + t[1..];
      assert multiset(t) == multiset{t[0]} + multiset(t[1..]);
    } else {
      assert InsertByArea(b, t) == [b] + t;
      assert multiset([b] + t) == multiset{b} + multiset(t);
    }
  }

  /** Sorting rearranges the boxes: nothing is lost, nothing is added. */
  lemma {:induction false} SortIsPermutation(s: seq<Box>)
    ensures multiset(SortByAreaDesc(s)) == multiset(s)
  {
    if s != [] {
      SortIsPermutation(s[1..]);
      InsertByAreaElements(s[0], SortByAreaDesc(s[1..]));
      assert s == [s[0]] + s[1..];
    }
  }

  lemma ConsSorted(x: Box, r: seq<Box>)
    requires SortedByAreaDesc(r) && (r == [] || BoxArea(r[0]) <= BoxArea(x))
    ensures SortedByAreaDesc([x] + r)
  {
    var s := [x] + r;
    forall i, j | 0 <= i < j < |s| ensures BoxArea(s[i]) >= BoxArea(s[j]) {
      if i == 0 {
        assert s[j] == r[j - 1];
        assert BoxArea(r[0]) >= BoxArea(r[j - 1]);
      } else {
        assert s[i] == r[i - 1] && s[j] == r[j - 1];
      }
    }
  }

  lemma {:induction false} InsertByAreaSorted(b: Box, t: seq<Box>)
    requires SortedByAreaDesc(t)
    ensures SortedByAreaDesc(InsertByArea(b, t))
    ensures InsertByArea(b, t) != [] && (InsertByArea(b, t)[0] == b || (t != [] && InsertByArea(b, t)[0] == t[0]))
  {
    if t != [] && BoxArea(t[0]) > BoxArea(b) {
      var tail := t[1..];
      assert SortedByAreaDesc(tail) by {
        forall i, j | 0 <= i < j < |tail| ensures BoxArea(tail[i]) >= BoxArea(tail[j]) {
          assert tail[i] == t[i + 1] && tail[j] == t[j + 1];
        }
      }
      InsertByAreaSorted(b, tail);
      var r := InsertByArea(b, tail);
      assert InsertByArea(b, t) == [t[0]] + r;
      if r[0] != b {
        assert r[0] == t[1];
      }
      ConsSorted(t[0], r);
    } else {
      ConsSorted(b, t);
    }
  }

  /** The sorted boxes are in non-increasing order of area. */
  lemma {:induction false} SortIsSorted(s: seq<Box>)
    ensures SortedByAreaDesc(SortByAreaDesc(s))
  {
    if s != [] {
      SortIsSorted(s[1..]);
      InsertByAreaSorted(s[0], SortByAreaDesc(s[1..]));
    }
  }

  lemma {:induction false} WithAreaAppend(a: seq<Box>, b: seq<Box>, k: int)
    ensures WithArea(a + b, k) == WithArea(a, k) + WithArea(b, k)
  {
    if a == [] {
      assert a + b == b;
    } else {
      assert (a + b)[0] == a[0] && (a + b)[1..] == a[1..] + b;
      var head := if BoxArea(a[0]) == k then [a[0]] else [];
      assert WithArea(a + b, k) == head + WithArea(a[1..] + b, k);
      assert WithArea(a, k) == head + WithArea(a[1..], k);
      WithAreaAppend(a[1..], b, k);
    }
  }

  lemma {:induction false} InsertByAreaStable(b: Box, t: seq<Box>, k: int)
    ensures WithArea(InsertByArea(b, t), k) == WithArea([b], k) + WithArea(t, k)
  {
    if t == [] {
    } else if BoxArea(t[0]) <= BoxArea(b) {
      WithAreaAppend([b], t, k);
    } else {
      InsertByAreaStable(b, t[1..], k);
      WithAreaAppend([t[0]], InsertByArea(b, t[1..]), k);
      WithAreaAppend([t[0]], t[1..], k);
      WithAreaAppend([b], t[1..], k);
      assert t == [t[0]] + t[1..];
      if BoxArea(b) == k {
        assert BoxArea(t[0]) != k;
      }
    }
  }

  /** Sorting is stable: the boxes of any one area keep their relative input order. */
  lemma {:induction false} SortIsStable(s: seq<Box>, k: int)
    ensures WithArea(SortByAreaDesc(s), k) == WithArea(s, k)
  {
    if s != [] {
      SortIsStable(s[1..], k);
      InsertByAreaStable(s[0], SortByAreaDesc(s[1..]), k);
      WithAreaAppend([s[0]], s[1..], k);
      assert s == [s[0]] + s[1..];
    }
  }

  lemma LargestFirst(r: seq<Box>, x: Box)
    requires SortedByAreaDesc(r) && x in r
    ensures BoxArea(x) <= BoxArea(r[0])
  {
    var i :| 0 <= i < |r| && r[i] == x;
    if i > 0 {
      assert BoxArea(r[0]) >= BoxArea(r[i]);
    }
  }

  lemma WithAreaHead(s: seq<Box>)
    requires s != []
    ensures WithArea(s, BoxArea(s[0])) == [s[0]] + WithArea(s[1..], BoxArea(s[0]))
  {
  }

  /** If t's first box occurs among r's boxes of its area, r starts with a box at least as large. */
  lemma FirstAtMost(t: seq<Box>, r: seq<Box>)
    requires t != [] && r != [] && SortedByAreaDesc(r)
    requires WithArea(t, BoxArea(t[0])) == WithArea(r, BoxArea(t[0]))
    ensures BoxArea(t[0]) <= BoxArea(r[0])
  {
    WithAreaMembers(t, BoxArea(t[0]), t[0]);
    WithAreaMembers(r, BoxArea(t[0]), t[0]);
    LargestFirst(r, t[0]);
  }

  lemma SameFirstBox(t: seq<Box>, r: seq<Box>)
    requires t != [] && r != [] && SortedByAreaDesc(t) && SortedByAreaDesc(r)
    requires forall k :: WithArea(t, k) == WithArea(r, k)
    ensures t[0] == r[0]
  {
    var k1, k2 := BoxArea(t[0]), BoxArea(r[0]);
    assert WithArea(t, k1) == WithArea(r, k1);
    assert WithArea(r, k2) == WithArea(t, k2);
    FirstAtMost(t, r);
    FirstAtMost(r, t);
    assert k1 == k2;
    WithAreaHead(t);
    WithAreaHead(r);
    var w := WithArea(t, k1);
    assert w[0] == t[0];
    assert w == WithArea(r, k2);
    assert w[0] == r[0];
  }

  /** Two orders that are both sorted and both stable with respect to each other coincide. */
  lemma {:induction false} SortedStableUnique(t: seq<Box>, r: seq<Box>)
    requires SortedByAreaDesc(t) && SortedByAreaDesc(r)
    requires forall k :: WithArea(t, k) == WithArea(r, k)
    ensures t == r
    decreases |t|
  {
    if t == [] || r == [] {
      if t != [] {
        WithAreaMembers(t, BoxArea(t[0]), t[0]);
      }
      if r != [] {
        WithAreaMembers(r, BoxArea(r[0]), r[0]);
      }
    } else {
      SameFirstBox(t, r);
      forall k ensures WithArea(t[1..], k) == WithArea(r[1..], k) {
        var head := if BoxArea(t[0]) == k then [t[0]] else [];
        assert WithArea(t, k) == head + WithArea(t[1..], k);
        assert WithArea(r, k) == head + WithArea(r[1..], k);
        assert WithArea(t, k) == WithArea(r, k);
        assert WithArea(t[1..], k) == WithArea(t, k)[|head|..];
        assert WithArea(r[1..], k) == WithArea(r, k)[|head|..];
      }
      SortedStableUnique(t[1..], r[1..]);
      assert t == [t[0]] + t[1..] && r == [r[0]] + r[1..];
    }
  }

  /**
   * SortByAreaDesc is exactly Python's stable descending sort: any order of the boxes that is
   * non-increasing in area and keeps boxes of equal area in input order is this one.
   */
  lemma SortIsPythonSort(s: seq<Box>, t: seq<Box>)
    requires SortedByAreaDesc(t)
    requires forall k :: WithArea(t, k) == WithArea(s, k)
    ensures t == SortByAreaDesc(s)
  {
    SortIsSorted(s);
    forall k ensures WithArea(t, k) == WithArea(SortByAreaDesc(s), k) {
      SortIsStable(s, k);
    }
    SortedStableUnique(t, SortByAreaDesc(s));
  }

  // ----- what detect_plate_areas returns -----

  /** At most MaxPlateCandidates boxes, fewer only when fewer contours qualify. */
  lemma PlateAreasCount(cs: seq<Contour>)
    ensures |PlateAreas(cs)| == Min(MaxPlateCandidates, |Candidates(cs)|)
    ensures |PlateAreas(cs)| <= MaxPlateCandidates
  {
    SortIsPermutation(Candidates(cs));
    assert |multiset(SortByAreaDesc(Candidates(cs)))| == |multiset(Candidates(cs))|;
  }

  /** Every returned box is the rectangle of a plate-shaped input contour. */
  lemma PlateAreasSound(cs: seq<Contour>)
    ensures forall b :: b in PlateAreas(cs) ==> exists c :: c in cs && IsPlateShaped(c) && c.rect == b
  {
    var cands := Candidates(cs);
    var sorted := SortByAreaDesc(cands);
    SortIsPermutation(cands);
    CandidatesMembers(cs);
    forall b | b in PlateAreas(cs) ensures exists c :: c in cs && IsPlateShaped(c) && c.rect == b {
      assert b in sorted;
      assert b in multiset(sorted);
      assert b in cands;
    }
  }

  lemma WithAreaPrefix(s: seq<Box>, n: nat, k: int)
    requires n <= |s|
    ensures WithArea(s[..n], k) <= WithArea(s, k)
  {
    WithAreaAppend(s[..n], s[n..], k);
    assert s[..n] + s[n..] == s;
  }

  /**
   * The boxes come largest first, and boxes of equal area come in the order of their
   * contours: for each area, the returned boxes are the first ones of that area.
   */
  lemma PlateAreasOrdered(cs: seq<Contour>)
    ensures SortedByAreaDesc(PlateAreas(cs))
    ensures forall k :: WithArea(PlateAreas(cs), k) <= WithArea(Candidates(cs), k)
  {
    var sorted := SortByAreaDesc(Candidates(cs));
    SortIsSorted(Candidates(cs));
    forall k ensures WithArea(PlateAreas(cs), k) <= WithArea(Candidates(cs), k) {
      SortIsStable(Candidates(cs), k);
      WithAreaPrefix(sorted, Min(MaxPlateCandidates, |sorted|), k);
    }
  }

  /** No plate-shaped contour whose box is strictly larger than a returned box is dropped. */
  lemma PlateAreasMaximal(cs: seq<Contour>)
    ensures forall c, b :: c in cs && IsPlateShaped(c) && b in PlateAreas(cs) && BoxArea(c.rect) > BoxArea(b)
                           ==> c.rect in PlateAreas(cs)
  {
    var cands := Candidates(cs);
    var sorted := SortByAreaDesc(cands);
    var m := Min(MaxPlateCandidates, |sorted|);
    SortIsPermutation(cands);
    SortIsSorted(cands);
    CandidatesMembers(cs);
    forall c, b | c in cs && IsPlateShaped(c) && b in PlateAreas(cs) && BoxArea(c.rect) > BoxArea(b)
      ensures c.rect in PlateAreas(cs)
    {
      assert c in cs && IsPlateShaped(c) && c.rect == c.rect;
      assert c.rect in cands;
      assert c.rect in multiset(cands);
      assert c.rect in sorted;
      var i :| 0 <= i < |sorted| && sorted[i] == c.rect;
      var j :| 0 <= j < m && sorted[..m][j] == b;
      assert i < m;
      assert sorted[..m][i] == c.rect;
    }
  }

  lemma CandidatesStep(cs: seq<Contour>, i: nat)
    requires i < |cs|
    ensures Candidates(cs[..i + 1]) == Candidates(cs[..i]) + (if IsPlateShaped(cs[i]) then [cs[i].rect] else [])
  {
    assert cs[..i + 1][..i] == cs[..i];
  }

  /** detect_plate_areas: filter the contours into a list, sort it, keep the first three. */
  method DetectPlateAreas(contours: seq<Contour>) returns (plates: seq<Box>)
    ensures plates == PlateAreas(contours)
    ensures |plates| == Min(MaxPlateCandidates, |Candidates(contours)|)
    ensures forall b :: b in plates ==> exists c :: c in contours && IsPlateShaped(c) && c.rect == b
    ensures SortedByAreaDesc(plates)
    ensures forall c, b :: c in contours && IsPlateShaped(c) && b in plates && BoxArea(c.rect) > BoxArea(b)
                           ==> c.rect in plates
  {
    var plateCandidates: seq<Box> := [];
    for i := 0 to |contours|
      invariant plateCandidates == Candidates(contours[..i])
    {
      var contour := contours[i];
      CandidatesStep(contours, i);
      if contour.area > MinPlateArea {
        var rect := contour.rect;
        var aspectRatio := rect.w as real / rect.h as real;
        if MinAspectRatio <= aspectRatio <= MaxAspectRatio
           && rect.w > MinPlateWidth && rect.h > MinPlateHeight {
          plateCandidates := plateCandidates + [rect];
        }
      }
    }
    assert contours[..|contours|] == contours;
    plateCandidates := SortByAreaDesc(plateCandidates);
    plates := plateCandidates[..Min(MaxPlateCandidates, |plateCandidates|)];
    PlateAreasCount(contours);
    PlateAreasSound(contours);
    PlateAreasOrdered(contours);
    PlateAreasMaximal(contours);
  }
}
