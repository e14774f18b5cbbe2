/** The falseticker sweep of sources.c: which stretch of the time line lies inside the largest
    number of source intervals. */
module Sweep {
  import opened Ordering

  /** The interval [lo, hi] that source number `source` claims the true offset lies in. */
  datatype Interval = Interval(source: nat, lo: real, hi: real)

  datatype Tag = LOW | HIGH

  datatype Endpoint = Endpoint(source: nat, offset: real, tag: Tag)

  ghost predicate Proper(ivs: seq<Interval>) {
    forall i :: 0 <= i < |ivs| ==> ivs[i].lo <= ivs[i].hi
  }

  /** How many of the intervals contain the point x. */
  ghost function Cover(ivs: seq<Interval>, x: real): nat {
    if ivs == [] then 0
    else
      var iv := ivs[|ivs| - 1];
      Cover(ivs[..|ivs| - 1], x) + if iv.lo <= x <= iv.hi then 1 else 0
  }

  /** depth is the largest number of intervals sharing a point, and lo and hi are the least and
      the greatest point shared by that many. */
  ghost predicate Deepest(ivs: seq<Interval>, depth: nat, lo: real, hi: real) {
    && Cover(ivs, lo) == depth
    && Cover(ivs, hi) == depth
    && forall x :: Cover(ivs, x) <= depth && (Cover(ivs, x) == depth ==> lo <= x <= hi)
  }

  lemma DeepestIsUnique(ivs: seq<Interval>, d: nat, lo: real, hi: real, d': nat, lo': real, hi': real)
    requires Deepest(ivs, d, lo, hi) && Deepest(ivs, d', lo', hi')
    ensures d == d' && lo == lo' && hi == hi'
  {
    assert Cover(ivs, lo) <= d' && Cover(ivs, lo') <= d;
    assert Cover(ivs, hi) == d && Cover(ivs, hi') == d';
  }

  // ---------- the endpoint list and its order ----------

  /** compare_sort_elements(a, b) <= 0 */
  predicate Before(a: Endpoint, b: Endpoint) {
    a.offset < b.offset || (a.offset == b.offset && (a.tag == LOW || b.tag == HIGH))
  }

  function Endpoints(ivs: seq<Interval>): seq<Endpoint> {
    if ivs == [] then []
    else
      var iv := ivs[|ivs| - 1];
      Endpoints(ivs[..|ivs| - 1]) + [Endpoint(iv.source, iv.lo, LOW), Endpoint(iv.source, iv.hi, HIGH)]
  }

  /** The endpoint list in some order qsort may leave it in. */
  ghost predicate IsSortList(l: seq<Endpoint>, ivs: seq<Interval>) {
    Sorted(l, Before) && Rearranges(l, Endpoints(ivs))
  }

  lemma SortGivesSortList(ivs: seq<Interval>)
    ensures IsSortList(Sort(Endpoints(ivs), Before), ivs)
  {
    SortSorts(Endpoints(ivs), Before);
  }

  // ---------- depth of a prefix against cover of a point ----------

  ghost function Step(): Endpoint -> int {
    (e: Endpoint) => if e.tag == LOW then 1 else -1
  }

  /** The sweep's depth counter after the endpoints of s. */
  ghost function Depth(s: seq<Endpoint>): int {
    Sum(s, Step())
  }

  /** Contribution of one endpoint to the cover of x: an interval is open at x once its low end
      is at or below x and closed once its high end is below x. */
  ghost function Weight(x: real): Endpoint -> int {
    (e: Endpoint) =>
      if e.tag == LOW then (if e.offset <= x then 1 else 0)
      else (if e.offset < x then -1 else 0)
  }

  lemma {:induction false} CoverIsBalance(ivs: seq<Interval>, x: real)
    requires Proper(ivs)
    ensures Sum(Endpoints(ivs), Weight(x)) == Cover(ivs, x)
  {
    if ivs != [] {
      var n := |ivs| - 1;
      var iv := ivs[n];
      var pair := [Endpoint(iv.source, iv.lo, LOW), Endpoint(iv.source, iv.hi, HIGH)];
      CoverIsBalance(ivs[..n], x);
      SumSplit(Endpoints(ivs[..n]), pair, Weight(x));
      assert pair[..1] == [pair[0]] && pair[..1][..0] == [];
      assert Sum(pair[..1], Weight(x)) == Weight(x)(pair[0]);
      assert iv == ivs[n] && iv.lo <= iv.hi;
    }
  }

  lemma {:induction false} DepthOfAll(ivs: seq<Interval>)
    ensures Depth(Endpoints(ivs)) == 0
    ensures |Endpoints(ivs)| == 2 * |ivs|
  {
    if ivs != [] {
      var n := |ivs| - 1;
      var iv := ivs[n];
      var pair := [Endpoint(iv.source, iv.lo, LOW), Endpoint(iv.source, iv.hi, HIGH)];
      DepthOfAll(ivs[..n]);
      SumSplit(Endpoints(ivs[..n]), pair, Step());
      assert pair[..1] == [pair[0]] && pair[..1][..0] == [];
      assert Sum(pair[..1], Step()) == 1;
    }
  }

  predicate AtOrBelow(e: Endpoint, x: real) {
    e.offset < x || (e.offset == x && e.tag == LOW)
  }

  /** p cuts the sorted list at x: everything before it is at or below the low side of x. */
  ghost predicate IsCut(l: seq<Endpoint>, x: real, p: nat) {
    && p <= |l|
    && (forall k :: 0 <= k < p ==> AtOrBelow(l[k], x))
    && (forall k :: p <= k < |l| ==> !AtOrBelow(l[k], x))
  }

  lemma FindCut(l: seq<Endpoint>, x: real) returns (p: nat)
    requires Sorted(l, Before)
    ensures IsCut(l, x, p)
  {
    p := |l|;
    while p > 0 && !AtOrBelow(l[p - 1], x)
      invariant p <= |l|
      invariant forall k :: p <= k < |l| ==> !AtOrBelow(l[k], x)
    {
      p := p - 1;
    }
    forall k | 0 <= k < p ensures AtOrBelow(l[k], x) {
      if k < p - 1 {
        assert Before(l[k], l[p - 1]);
      }
    }
  }

  lemma CutBalance(l: seq<Endpoint>, x: real, p: nat)
    requires IsCut(l, x, p)
    ensures Sum(l, Weight(x)) == Depth(l[..p])
  {
    assert l == l[..p] + l[p..];
    SumSplit(l[..p], l[p..], Weight(x));
    SumAgree(l[..p], Weight(x), Step());
    SumAgree(l[p..], Weight(x), (e: Endpoint) => 0);
    SumOfZero(l[p..]);
  }

  /** The cover of any point is the depth the sweep has reached at that point's cut. */
  lemma CutDepth(ivs: seq<Interval>, l: seq<Endpoint>, x: real) returns (p: nat)
    requires Proper(ivs) && IsSortList(l, ivs)
    ensures IsCut(l, x, p) && Cover(ivs, x) == Depth(l[..p])
  {
    p := FindCut(l, x);
    CutBalance(l, x, p);
    CoverIsBalance(ivs, x);
    SumRearranged(l, Endpoints(ivs), Weight(x));
  }

  lemma {:induction false} SumOfZero(s: seq<Endpoint>)
    ensures Sum(s, (e: Endpoint) => 0) == 0
  {
    if s != [] {
      SumOfZero(s[..|s| - 1]);
    }
  }

  lemma DepthStep(l: seq<Endpoint>, k: nat)
    requires k < |l|
    ensures Depth(l[..k + 1]) == Depth(l[..k]) + if l[k].tag == LOW then 1 else -1
  {
    assert l[..k + 1][..k] == l[..k];
  }

  /** Behind a run of high ends the depth only falls. */
  lemma {:induction false} DepthFalls(l: seq<Endpoint>, p: nat, q: nat)
    requires p <= q <= |l|
    requires forall k :: p <= k < q ==> l[k].tag == HIGH
    ensures Depth(l[..q]) <= Depth(l[..p])
    decreases q - p
  {
    if p < q {
      DepthStep(l, q - 1);
      DepthFalls(l, p, q - 1);
    }
  }

  /** Just after a low end, or just before a high end, the sweep is no deeper than the cover
      of that endpoint's offset. */
  lemma DepthAtEndpoint(ivs: seq<Interval>, l: seq<Endpoint>, k: nat)
    requires Proper(ivs) && IsSortList(l, ivs) && k < |l|
    ensures l[k].tag == LOW ==> Depth(l[..k + 1]) <= Cover(ivs, l[k].offset)
    ensures l[k].tag == HIGH ==> Depth(l[..k]) <= Cover(ivs, l[k].offset)
  {
    var x := l[k].offset;
    var p := CutDepth(ivs, l, x);
    if l[k].tag == HIGH {
      forall j | p <= j < k ensures l[j].tag == HIGH {
        assert Before(l[j], l[k]);
      }
      DepthFalls(l, p, k);
    } else {
      forall j | k + 1 <= j < p ensures l[j].tag == LOW {
        assert Before(l[k], l[j]);
      }
      DepthRises(l, k + 1, p);
    }
  }

  lemma {:induction false} DepthRises(l: seq<Endpoint>, p: nat, q: nat)
    requires p <= q <= |l|
    requires forall k :: p <= k < q ==> l[k].tag == LOW
    ensures Depth(l[..p]) <= Depth(l[..q])
    decreases q - p
  {
    if p < q {
      DepthStep(l, q - 1);
      DepthRises(l, p, q - 1);
    }
  }

  // ---------- the sweep ----------

  /** q is the first prefix of l[..i] of the given depth, and no prefix is deeper. */
  ghost predicate FirstDeepest(l: seq<Endpoint>, i: nat, depth: int, q: nat) {
    && q <= i <= |l|
    && Depth(l[..q]) == depth
    && (forall p :: 0 <= p <= i ==> Depth(l[..p]) <= depth)
    && (forall p :: 0 <= p < q ==> Depth(l[..p]) < depth)
  }

  /** h is the last high end below i that the sweep meets at the given depth (-1 if none). */
  ghost predicate LastHigh(l: seq<Endpoint>, i: nat, depth: int, h: int) {
    && -1 <= h < i <= |l| + 1
    && i <= |l|
    && (h >= 0 ==> l[h].tag == HIGH && Depth(l[..h]) == depth)
    && (forall p :: h < p < i && l[p].tag == HIGH ==> Depth(l[..p]) != depth)
  }

  lemma SweepLow(l: seq<Endpoint>, i: nat, best: int, q: nat, h: int)
    requires FirstDeepest(l, i, best, q) && LastHigh(l, i, best, h)
    requires i < |l| && l[i].tag == LOW
    ensures var d := Depth(l[..i + 1]);
            if d > best then FirstDeepest(l, i + 1, d, i + 1) && LastHigh(l, i + 1, d, -1)
            else FirstDeepest(l, i + 1, best, q) && LastHigh(l, i + 1, best, h)
  {
  }

  lemma SweepHigh(l: seq<Endpoint>, i: nat, best: int, q: nat, h: int)
    requires FirstDeepest(l, i, best, q) && LastHigh(l, i, best, h)
    requires i < |l| && l[i].tag == HIGH
    ensures FirstDeepest(l, i + 1, best, q)
    ensures LastHigh(l, i + 1, best, if Depth(l[..i]) == best then i else h)
  {
    DepthStep(l, i);
  }

  /** The variables of the sweep, with the prefix that first reached `best` and the last high end
      met at that depth. */
  datatype State = State(depth: int, best: nat, lo: real, hi: real, ghost first: nat, ghost last: int)

  ghost function Swept(l: seq<Endpoint>, i: nat): State
    requires i <= |l|
  {
    if i == 0 then State(0, 0, 0.0, 0.0, 0, -1)
    else
      var s, e := Swept(l, i - 1), l[i - 1];
      if e.tag == LOW then
        if s.depth + 1 > s.best then State(s.depth + 1, s.depth + 1, e.offset, s.hi, i, -1)
        else s.(depth := s.depth + 1)
      else if s.depth == s.best then s.(depth := s.depth - 1, hi := e.offset, last := i - 1)
      else s.(depth := s.depth - 1)
  }

  lemma {:induction false} SweptValues(l: seq<Endpoint>, i: nat)
    requires i <= |l|
    ensures var s := Swept(l, i);
            && s.depth == Depth(l[..i])
            && s.first <= i && (s.first > 0 ==> s.lo == l[s.first - 1].offset)
            && s.last < i && (s.last >= 0 ==> s.hi == l[s.last].offset)
  {
    if i > 0 {
      SweptValues(l, i - 1);
      DepthStep(l, i - 1);
    }
  }

  lemma {:induction false} SweptPrefixes(l: seq<Endpoint>, i: nat)
    requires i <= |l|
    ensures var s := Swept(l, i);
            FirstDeepest(l, i, s.best, s.first) && LastHigh(l, i, s.best, s.last)
  {
    if i > 0 {
      var s := Swept(l, i - 1);
      SweptPrefixes(l, i - 1);
      SweptValues(l, i - 1);
      SweptValues(l, i);
      if l[i - 1].tag == LOW {
        SweepLow(l, i - 1, s.best, s.first, s.last);
      } else {
        SweepHigh(l, i - 1, s.best, s.first, s.last);
      }
    }
  }

  method FindBestInterval(l: seq<Endpoint>, ghost ivs: seq<Interval>)
    returns (bestDepth: nat, bestLo: real, bestHi: real)
    requires Proper(ivs) && ivs != [] && IsSortList(l, ivs)
    ensures Deepest(ivs, bestDepth, bestLo, bestHi)
  {
    var depth: int := 0;
    bestDepth, bestLo, bestHi := 0, 0.0, 0.0;
    for i := 0 to |l|
      invariant var s := Swept(l, i);
                depth == s.depth && bestDepth == s.best && bestLo == s.lo && bestHi == s.hi
    {
      match l[i].tag {
        case LOW =>
          depth := depth + 1;
          if depth > bestDepth {
            bestDepth := depth;
            bestLo := l[i].offset;
          }
        case HIGH =>
          if depth == bestDepth {
            bestHi := l[i].offset;
          }
          depth := depth - 1;
      }
    }
    SweptValues(l, |l|);
    SweptPrefixes(l, |l|);
    SweepIsDeepest(ivs, l, bestDepth, Swept(l, |l|).first, Swept(l, |l|).last);
  }

  lemma SweepIsDeepest(ivs: seq<Interval>, l: seq<Endpoint>, depth: nat, q: nat, h: int)
    requires Proper(ivs) && ivs != [] && IsSortList(l, ivs)
    requires FirstDeepest(l, |l|, depth, q) && LastHigh(l, |l|, depth, h)
    ensures q > 0 && h >= 0 && Deepest(ivs, depth, l[q - 1].offset, l[h].offset)
  {
    var x := ivs[0].lo;
    CoverOfMember(ivs, 0);
    CoverIsBounded(ivs, l, depth, q, h, x);
    assert l[..0] == [];
    DepthStep(l, q - 1);
    DepthAtEndpoint(ivs, l, q - 1);
    CoverIsBounded(ivs, l, depth, q, h, l[q - 1].offset);
    DepthAtEndpoint(ivs, l, h);
    forall y
      ensures Cover(ivs, y) <= depth
      ensures Cover(ivs, y) == depth ==> l[q - 1].offset <= y <= l[h].offset
    {
      CoverIsBounded(ivs, l, depth, q, h, y);
    }
  }

  /** No point is covered more often than the deepest prefix, and one covered that often lies
      between the sweep's two witnesses. */
  lemma CoverIsBounded(ivs: seq<Interval>, l: seq<Endpoint>, depth: nat, q: nat, h: int, x: real)
    requires Proper(ivs) && IsSortList(l, ivs)
    requires FirstDeepest(l, |l|, depth, q) && LastHigh(l, |l|, depth, h)
    ensures Cover(ivs, x) <= depth
    ensures Cover(ivs, x) == depth > 0 ==> q > 0 && h >= 0 && l[q - 1].offset <= x <= l[h].offset
  {
    var p := CutDepth(ivs, l, x);
    if Cover(ivs, x) == depth > 0 {
      FirstReach(l, depth, q, p);
      assert AtOrBelow(l[q - 1], x);
      DepthOfAll(ivs);
      SumRearranged(l, Endpoints(ivs), Step());
      LastFall(l, depth, q, h, p);
      assert !AtOrBelow(l[p], x);
      assert p < h ==> Before(l[p], l[h]);
    }
  }

  lemma FirstReach(l: seq<Endpoint>, depth: int, q: nat, p: nat)
    requires FirstDeepest(l, |l|, depth, q) && p <= |l| && Depth(l[..p]) == depth > 0
    ensures 0 < q <= p
  {
    assert l[..0] == [];
  }

  /** Once at the greatest depth, the next endpoint is a high one. */
  lemma LastFall(l: seq<Endpoint>, depth: int, q: nat, h: int, p: nat)
    requires FirstDeepest(l, |l|, depth, q) && LastHigh(l, |l|, depth, h)
    requires Depth(l) == 0 && p <= |l| && Depth(l[..p]) == depth > 0
    ensures p < |l| && l[p].tag == HIGH && p <= h
  {
    assert l[..|l|] == l;
    DepthStep(l, p);
    assert p + 1 <= |l| && Depth(l[..p + 1]) <= depth;
  }

  lemma {:induction false} CoverOfMember(ivs: seq<Interval>, i: nat)
    requires Proper(ivs) && i < |ivs|
    ensures Cover(ivs, ivs[i].lo) > 0
  {
    if i < |ivs| - 1 {
      CoverOfMember(ivs[..|ivs| - 1], i);
    }
  }

  // ---------- the majority argument ----------

  /** How many intervals contain the whole of [lo, hi]. */
  ghost function Containing(ivs: seq<Interval>, lo: real, hi: real): nat {
    if ivs == [] then 0
    else
      var iv := ivs[|ivs| - 1];
      Containing(ivs[..|ivs| - 1], lo, hi) + if iv.lo <= lo && hi <= iv.hi then 1 else 0
  }

  /** Pigeonhole between the first and the last of the deepest points. */
  lemma {:induction false} Pigeonhole(ivs: seq<Interval>, lo: real, hi: real)
    requires lo <= hi
    ensures Containing(ivs, lo, hi) >= Cover(ivs, lo) + Cover(ivs, hi) - |ivs|
  {
    if ivs != [] {
      Pigeonhole(ivs[..|ivs| - 1], lo, hi);
    }
  }

  lemma {:induction false} SomeContaining(ivs: seq<Interval>, lo: real, hi: real) returns (i: nat)
    requires Containing(ivs, lo, hi) > 0
    ensures i < |ivs| && ivs[i].lo <= lo && hi <= ivs[i].hi
  {
    var n := |ivs| - 1;
    if ivs[n].lo <= lo && hi <= ivs[n].hi {
      i := n;
    } else {
      i := SomeContaining(ivs[..n], lo, hi);
    }
  }

  /** A majority at the deepest level leaves sources that contain the whole best interval. */
  lemma MajorityAgrees(ivs: seq<Interval>, depth: nat, lo: real, hi: real) returns (i: nat)
    requires Deepest(ivs, depth, lo, hi) && depth > |ivs| / 2
    ensures Containing(ivs, lo, hi) >= 2 * depth - |ivs| > 0
    ensures i < |ivs| && ivs[i].lo <= lo && hi <= ivs[i].hi
  {
    Pigeonhole(ivs, lo, hi);
    i := SomeContaining(ivs, lo, hi);
  }
}
