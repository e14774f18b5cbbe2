/** The reference clock's median filter (refclock.c): a ring of samples, and the selection of the
    samples closest to the median, put back into their order of arrival by following the cycles
    of a permutation inside one array. */
module MedianFilter {
  import opened Numbers
  import opened Ordering

  datatype FilterSample = FilterSample(time: int, offset: real, dispersion: real)

  // ---------- ring arithmetic ----------

  lemma ModWraps(x: int, n: int)
    requires 0 < n && 0 <= x < 2 * n
    ensures x % n == if x < n then x else x - n
  {
    assert x == n * (x / n) + x % n;
  }

  /** Age of the sample in slot s: 0 for the oldest. */
  function Rank(s: int, index: int, used: int): (r: int)
    requires -1 <= index < used && 0 <= s < used
    ensures 0 <= r < used
  {
    if s <= index then s + used - index - 1 else s - index - 1
  }

  /** Slot of the sample of age r. */
  function Slot(r: int, index: int, used: int): (s: int)
    requires -1 <= index < used && 0 <= r < used
    ensures 0 <= s < used
  {
    if r + index + 1 < used then r + index + 1 else r + index + 1 - used
  }

  /** The two are what the filter computes with remainders, and undo each other. */
  lemma RankSlotInverse(x: int, index: int, used: int)
    requires -1 <= index < used && 0 <= x < used
    ensures Rank(x, index, used) == (x + (used - index - 1)) % used
    ensures Slot(x, index, used) == (x + used - (used - index - 1)) % used
    ensures Slot(Rank(x, index, used), index, used) == x
    ensures Rank(Slot(x, index, used), index, used) == x
    ensures x == index ==> Rank(x, index, used) == used - 1
  {
    ModWraps(x + (used - index - 1), used);
    ModWraps(x + index + 1, used);
  }

  // ---------- candidates ----------

  function Smallest(d: seq<FilterSample>): real
    requires d != []
  {
    if |d| == 1 then d[0].dispersion
    else
      var m := Smallest(d[..|d| - 1]);
      if m > d[|d| - 1].dispersion then d[|d| - 1].dispersion else m
  }

  function Precise(d: seq<FilterSample>, limit: real): seq<int> {
    if d == [] then []
    else
      var n := |d| - 1;
      Precise(d[..n], limit) + if d[n].dispersion <= limit then [n] else []
  }

  function Upto(n: nat): seq<int> {
    if n == 0 then [] else Upto(n - 1) + [n - 1]
  }

  /** The slots to choose from: the precise ones, or all if those are fewer than four. */
  function Candidates(d: seq<FilterSample>): seq<int> {
    if |d| > 4 && |Precise(d, 1.5 * Smallest(d))| >= 4 then Precise(d, 1.5 * Smallest(d)) else Upto(|d|)
  }

  ghost predicate Distinct(s: seq<int>) {
    forall i, j :: 0 <= i < j < |s| ==> s[i] != s[j]
  }

  ghost predicate Within(s: seq<int>, n: int) {
    forall i :: 0 <= i < |s| ==> 0 <= s[i] < n
  }

  lemma {:induction false} PreciseIsExact(d: seq<FilterSample>, limit: real) returns (p: seq<int>)
    ensures p == Precise(d, limit) && Within(p, |d|) && Distinct(p)
    ensures forall s :: 0 <= s < |d| ==> (s in p <==> d[s].dispersion <= limit)
  {
    p := [];
    if d != [] {
      var n := |d| - 1;
      p := PreciseIsExact(d[..n], limit);
      assert forall s :: 0 <= s < n ==> d[..n][s] == d[s];
      if d[n].dispersion <= limit {
        p := p + [n];
      }
    }
  }

  lemma {:induction false} UptoIsExact(n: nat) returns (p: seq<int>)
    ensures p == Upto(n) && |p| == n && forall k :: 0 <= k < n ==> p[k] == k
  {
    p := [];
    if n > 0 {
      p := UptoIsExact(n - 1) ;
      p := p + [n - 1];
    }
  }

  lemma CandidatesAreSlots(d: seq<FilterSample>) returns (c: seq<int>)
    ensures c == Candidates(d) && Within(c, |d|) && Distinct(c) && |c| <= |d|
  {
    if |d| > 4 {
      c := PreciseIsExact(d, 1.5 * Smallest(d));
    }
    if |d| <= 4 || |c| < 4 {
      c := UptoIsExact(|d|);
    }
    DistinctFit(c, |d|);
  }

  ghost function Elements(s: seq<int>): set<int> {
    set x | x in s
  }

  ghost function Range(n: nat): (r: set<int>)
    ensures |r| == n && forall x :: x in r <==> 0 <= x < n
  {
    if n == 0 then {} else Range(n - 1) + {n - 1}
  }

  lemma DistinctFit(s: seq<int>, n: nat)
    requires Distinct(s) && Within(s, n)
    ensures |s| <= n && |Elements(s)| == |s|
  {
    DistinctSet(s);
    SubsetSize(Elements(s), Range(n));
  }

  lemma SubsetSize(a: set<int>, b: set<int>)
    requires a <= b
    ensures |a| <= |b|
  {
    assert b == a + (b - a);
  }

  lemma {:induction false} DistinctSet(s: seq<int>)
    requires Distinct(s)
    ensures |Elements(s)| == |s|
  {
    if s != [] {
      var n := |s| - 1;
      DistinctSet(s[..n]);
      assert Elements(s) == Elements(s[..n]) + {s[n]};
    }
  }

  // ---------- what the selection promises ----------

  /** Samples trimmed from each end of the offset order. */
  function Trim(j: nat): (k: nat)
    ensures 2 * k <= j
  {
    if j <= 2 then 0 else if j / 5 < 1 then 1 else j / 5
  }

  function Key(d: seq<FilterSample>, slot: int): real {
    if 0 <= slot < |d| then d[slot].offset else 0.0
  }

  /** sample_compare(a, b) <= 0 */
  function ByOffset(d: seq<FilterSample>): (int, int) -> bool {
    (a, b) => Key(d, a) <= Key(d, b)
  }

  /** order is the candidates by offset, in some order qsort may leave them in. */
  ghost predicate IsOffsetOrder(order: seq<int>, d: seq<FilterSample>) {
    Rearranges(order, Candidates(d)) && Sorted(order, ByOffset(d))
  }

  /** out is the middle of the offset order, each slot once, from the oldest to the newest. */
  ghost predicate IsSelection(out: seq<int>, order: seq<int>, index: int, used: int)
    requires -1 <= index < used
  {
    var k := Trim(|order|);
    && |out| == |order| - 2 * k
    && Within(out, used)
    && (forall s :: s in out <==> s in order[k..|order| - k])
    && (forall i, j :: 0 <= i < j < |out| ==> Rank(out[i], index, used) < Rank(out[j], index, used))
  }

  // ---------- the ascending list of a set of ranks ----------

  ghost function Ascending(ranks: set<int>, n: nat): seq<int> {
    if n == 0 then [] else Ascending(ranks, n - 1) + if n - 1 in ranks then [n - 1] else []
  }

  lemma {:induction false} AscendingIsExact(ranks: set<int>, n: nat) returns (a: seq<int>)
    ensures a == Ascending(ranks, n) && Within(a, n)
    ensures forall i, j :: 0 <= i < j < |a| ==> a[i] < a[j]
    ensures forall r :: r in a <==> r in ranks && 0 <= r < n
  {
    a := [];
    if n > 0 {
      a := AscendingIsExact(ranks, n - 1);
      if n - 1 in ranks {
        a := a + [n - 1];
      }
    }
  }

  // ---------- following cycles ----------

  /** Halfway through the cycle-following loop: every rank but the one in hand sits in exactly one
      cell (pos), and the cells outside lo..to hold nothing or their own index. */
  ghost predicate Chain(a: seq<int>, ranks: set<int>, lo: int, to: int, hand: int, pos: map<int, int>) {
    && (hand == -1 || hand in ranks)
    && (forall r :: r in ranks ==> 0 <= r < |a|)
    && (forall c :: 0 <= c < |a| ==>
          a[c] == -1 || (a[c] in ranks && a[c] != hand && a[c] in pos && pos[a[c]] == c))
    && (forall c :: 0 <= c < |a| && !(lo <= c < to) ==> a[c] == -1 || a[c] == c)
    && (forall r :: r in ranks && r != hand ==> r in pos && 0 <= pos[r] < |a| && a[pos[r]] == r)
  }

  ghost function Unplaced(a: seq<int>): set<int> {
    set c | c in Range(|a|) && a[c] != c
  }

  /** Putting the rank in hand into its own cell frees the rank that was there. */
  lemma ChainStep(a: seq<int>, ranks: set<int>, lo: int, to: int, hand: int, pos: map<int, int>)
    requires Chain(a, ranks, lo, to, hand, pos) && hand != -1
    ensures a[hand] != hand
    ensures Chain(a[hand := hand], ranks, lo, to, a[hand], pos[hand := hand])
    ensures Unplaced(a[hand := hand]) < Unplaced(a)
  {
    assert hand in Unplaced(a);
    assert Unplaced(a[hand := hand]) == Unplaced(a) - {hand};
  }

  lemma ChainTake(a: seq<int>, ranks: set<int>, i: int, to: int, pos: map<int, int>)
    requires Chain(a, ranks, i, to, -1, pos) && 0 <= i < to <= |a|
    ensures Chain(a[i := -1], ranks, i + 1, to, a[i], pos)
  {
  }

  lemma ChainEnd(a: seq<int>, ranks: set<int>, to: int, pos: map<int, int>)
    requires Chain(a, ranks, to, to, -1, pos)
    ensures forall c :: 0 <= c < |a| ==> a[c] == if c in ranks then c else -1
  {
  }

  /** Follow one cycle: put the rank in hand into its cell, take up the rank that was there, and
      go on until a cell was empty. */
  method FollowCycle(selected: array<int>, used: nat, hand: int, ghost ranks: set<int>, ghost lo: int, ghost to: int,
                     ghost pos: map<int, int>)
    returns (ghost pos': map<int, int>)
    requires used <= selected.Length && Chain(selected[..used], ranks, lo, to, hand, pos)
    modifies selected
    ensures Chain(selected[..used], ranks, lo, to, -1, pos')
  {
    ghost var a := selected[..used];
    pos' := pos;
    var j := hand;
    while j != -1 && selected[j] != j
      invariant a == selected[..used] && Chain(a, ranks, lo, to, j, pos')
      decreases Unplaced(a)
    {
      ChainStep(a, ranks, lo, to, j, pos');
      var k := selected[j];
      selected[j] := j;
      a, pos' := a[j := j], pos'[j := j];
      j := k;
    }
    assert j == -1;
  }

  /** Distinct cell numbers in from..to, and nothing elsewhere. */
  ghost predicate Loose(a: seq<int>, from: nat, to: nat) {
    && from <= to <= |a|
    && Distinct(a[from..to]) && Within(a[from..to], |a|)
    && forall c :: 0 <= c < |a| && !(from <= c < to) ==> a[c] == -1
  }

  /** Each of the ranks in the cell it names, and nothing elsewhere. */
  ghost function Placed(ranks: set<int>, n: nat): seq<int> {
    seq(n, c => if c in ranks then c else -1)
  }

  /** Sort distinct cell numbers, stored anywhere in from..to, each into the cell it names. */
  method PlaceByCycles(selected: array<int>, from: nat, to: nat, used: nat, ghost start: seq<int>)
    requires used <= selected.Length && selected[..used] == start && Loose(start, from, to)
    modifies selected
    ensures selected[..used] == Placed(Elements(start[from..to]), used)
  {
    ghost var ranks := Elements(start[from..to]);
    ghost var pos := ChainStart(start, from, to);
    for i := from to to
      invariant Chain(selected[..used], ranks, i, to, -1, pos)
    {
      ghost var a := selected[..used];
      ChainTake(a, ranks, i, to, pos);
      var j := selected[i];
      selected[i] := -1;
      assert selected[..used] == a[i := -1];
      pos := FollowCycle(selected, used, j, ranks, i + 1, to, pos);
    }
    ChainEnd(selected[..used], ranks, to, pos);
  }

  lemma ChainStart(a: seq<int>, from: nat, to: nat) returns (pos: map<int, int>)
    requires Loose(a, from, to)
    ensures Chain(a, Elements(a[from..to]), from, to, -1, pos)
  {
    var cells := set c | c in Range(|a|) && from <= c < to;
    pos := map r | r in Elements(a[from..to]) :: CellOf(a, from, to, r);
    forall c | from <= c < to ensures a[c] in pos && pos[a[c]] == c {
      assert a[from..to][c - from] == a[c];
      var d := pos[a[c]];
      assert a[from..to][d - from] == a[d];
    }
  }

  ghost function CellOf(a: seq<int>, from: nat, to: nat, r: int): (c: int)
    requires from <= to <= |a| && r in a[from..to]
    ensures from <= c < to && a[c] == r
  {
    var k :| 0 <= k < to - from && a[from..to][k] == r;
    from + k
  }

  // ---------- the filter ----------

  class Filter {
    const length: nat
    const samples: array<FilterSample>
    const selected: array<int>
    var index: int
    var used: nat
    var last: int
    /** The samples the ring holds, oldest first. */
    ghost var live: seq<FilterSample>

    ghost predicate Valid() reads this, samples {
      && 1 <= length == samples.Length == selected.Length
      && used <= length && used == |live|
      && (if used < length then index == used - 1 else 0 <= index < used)
      && -1 <= last < length && (used > 0 ==> last == index)
      && forall r :: 0 <= r < used ==> samples[Slot(r, index, used)] == live[r]
    }

    /** The bounds the steps of a selection rely on. */
    ghost predicate Bounds() reads this {
      length == samples.Length == selected.Length && used <= length && (used > 0 ==> -1 <= index < used)
    }

    constructor (length: nat)
      ensures Valid() && live == [] && this.length == if length < 1 then 1 else length
      ensures fresh(samples) && fresh(selected)
    {
      var n := if length < 1 then 1 else length;
      this.length := n;
      samples := new FilterSample[n](i => FilterSample(0, 0.0, 0.0));
      selected := new int[n];
      index, used, last, live := -1, 0, -1, [];
    }

    /** Drop all samples; `last` still names the newest one. */
    method Reset()
      requires Valid()
      modifies this
      ensures Valid() && live == [] && last == old(last)
    {
      index, used, live := -1, 0, [];
    }

    /** Append a sample; a full ring drops its oldest. */
    method AddSample(s: FilterSample)
      requires Valid()
      modifies this, samples
      ensures Valid()
      ensures live == (if |old(live)| == length then old(live)[1..] else old(live)) + [s]
      ensures samples[last] == s
    {
      ghost var oldSlots := samples[..];
      ModWraps(index + 1, length);
      index := (index + 1) % length;
      last := index;
      if used < length {
        used := used + 1;
      }
      samples[index] := s;
      live := (if |live| == length then live[1..] else live) + [s];
      forall r | 0 <= r < used ensures samples[Slot(r, index, used)] == live[r] {
        SlotAfterAdd(old(index), old(used), index, used, length, r);
      }
    }

    /** filter_select_samples needs a full ring if it is short, and four samples otherwise. */
    predicate Ready() reads this {
      used >= 1 && (if length < 4 then used == length else used >= 4)
    }

    method LeastDispersion() returns (m: real)
      requires Bounds() && used >= 1
      ensures m == Smallest(samples[..used])
    {
      ghost var d := samples[..used];
      m := samples[0].dispersion;
      assert d[..1] == [d[0]];
      for i := 1 to used
        invariant m == Smallest(d[..i])
      {
        assert d[..i + 1][..i] == d[..i];
        if m > samples[i].dispersion {
          m := samples[i].dispersion;
        }
      }
      assert d[..used] == d;
    }

    method PreciseSlots(limit: real) returns (j: nat)
      requires Bounds()
      modifies selected
      ensures j <= used && selected[..j] == Precise(samples[..used], limit)
    {
      ghost var d := samples[..used];
      j := 0;
      for i := 0 to used
        invariant j <= i && selected[..j] == Precise(d[..i], limit)
      {
        assert d[..i + 1][..i] == d[..i] && d[..i + 1][i] == d[i] == samples[i];
        if samples[i].dispersion <= limit {
          selected[j] := i;
          j := j + 1;
        }
      }
      assert d[..used] == d;
    }

    /** Step 1: the slots to choose from. */
    method ChooseCandidates() returns (j: nat)
      requires Bounds() && used >= 1
      modifies selected
      ensures j <= used && selected[..j] == Candidates(samples[..used])
    {
      j := 0;
      if used > 4 {
        var m := LeastDispersion();
        j := PreciseSlots(1.5 * m);
      }
      if j < 4 {
        j := 0;
        while j < used
          invariant j <= used && selected[..j] == Upto(j)
        {
          selected[j] := j;
          j := j + 1;
        }
      }
    }

    /** Step 2: sort the candidates by offset. */
    method SortByOffset(j: nat)
      requires Bounds() && j <= used && selected[..j] == Candidates(samples[..used])
      modifies selected
      ensures IsOffsetOrder(selected[..j], samples[..used])
    {
      ghost var d := samples[..used];
      var l := Sort(selected[..j], ByOffset(samples[..used]));
      SortLength(selected[..j], ByOffset(d));
      OffsetOrderIsSound(d);
      for i := 0 to j
        invariant selected[..i] == l[..i]
      {
        selected[i] := l[i];
      }
      assert l[..j] == l && samples[..used] == d;
    }

    /** Step 3: trim both ends and replace the surviving slots by their ranks. */
    method MarkMiddle(j: nat, ghost order: seq<int>) returns (from: nat, to: nat)
      requires Bounds() && j <= used && used >= 1
      requires selected[..j] == order && |order| == j && Within(order, used)
      modifies selected
      ensures from == Trim(j) && to == j - from
      ensures selected[..used] == Middle(order, index, used)
    {
      if j > 2 {
        from := j / 5;
        if from < 1 {
          from := 1;
        }
        to := j - from;
      } else {
        from, to := 0, j;
      }
      ghost var m := Middle(order, index, used);
      var o := used - index - 1;
      var i := 0;
      while i < from
        invariant i <= from
        invariant forall c :: 0 <= c < i ==> selected[c] == m[c]
        invariant forall c :: i <= c < j ==> selected[c] == order[c]
      {
        selected[i] := -1;
        i := i + 1;
      }
      while i < to
        invariant from <= i <= to
        invariant forall c :: 0 <= c < i ==> selected[c] == m[c]
        invariant forall c :: i <= c < j ==> selected[c] == order[c]
      {
        RankSlotInverse(order[i], index, used);
        selected[i] := (selected[i] + o) % used;
        i := i + 1;
      }
      while i < used
        invariant to <= i <= used
        invariant forall c :: 0 <= c < i ==> selected[c] == m[c]
      {
        selected[i] := -1;
        i := i + 1;
      }
      assert selected[..used] == m;
    }

    /** Step 4: put every rank into the cell of its number. */
    method SortByAge(from: nat, to: nat, ghost order: seq<int>)
      requires Bounds() && used >= 1 && |order| <= used && Within(order, used) && Distinct(order)
      requires from == Trim(|order|) && to == |order| - from
      requires selected[..used] == Middle(order, index, used)
      modifies selected
      ensures selected[..used] == Placed(Survivors(order, index, used), used)
    {
      assert |Middle(order, index, used)| == used;
      MiddleIsLoose(order, index, used);
      hide Middle, Loose, Placed, Elements;
      PlaceByCycles(selected, from, to, used, Middle(order, index, used));
    }

    /** Step 5: close the gaps and turn ranks back into slots. */
    method Compact(ghost ranks: set<int>) returns (j: nat)
      requires Bounds() && used >= 1
      requires selected[..used] == Placed(ranks, used)
      modifies selected
      ensures j <= used && selected[..j] == Slots(Ascending(ranks, used), index, used)
    {
      var o := used - index - 1;
      j := 0;
      for i := 0 to used
        invariant j <= i && selected[..j] == Slots(Ascending(ranks, i), index, used)
        invariant forall c :: i <= c < used ==> selected[c] == if c in ranks then c else -1
      {
        SlotsStep(ranks, i, index, used);
        if selected[i] != -1 {
          RankSlotInverse(i, index, used);
          selected[j] := (selected[i] + used - o) % used;
          j := j + 1;
        }
      }
    }

    /** The middle of the samples by offset, in order of arrival; order is the offset order that
        sorting left the candidates in. */
    method SelectSamples() returns (n: nat, ghost order: seq<int>)
      requires Valid()
      modifies selected
      ensures n <= selected.Length
      ensures !Ready() ==> n == 0
      ensures Ready() ==>
                IsOffsetOrder(order, samples[..used]) && IsSelection(selected[..n], order, index, used)
    {
      n, order := 0, [];
      if used < 1 {
        return;
      }
      if (length < 4 && used != length) || (length >= 4 && used < 4) {
        return;
      }
      n, order := SelectMiddle();
    }

    /** Steps 1 to 5. */
    method SelectMiddle() returns (n: nat, ghost order: seq<int>)
      requires Bounds() && used >= 1
      modifies selected
      ensures n <= used
      ensures IsOffsetOrder(order, samples[..used]) && IsSelection(selected[..n], order, index, used)
    {
      hide Slots, Ascending, Survivors, Placed, Middle, IsSelection, IsOffsetOrder, Candidates;
      ghost var d := samples[..used];
      var j := ChooseCandidates();
      SortByOffset(j);
      order := selected[..j];
      OffsetOrderShape(order, d);
      var from, to := MarkMiddle(j, order);
      SortByAge(from, to, order);
      n := Compact(Survivors(order, index, used));
      SelectionIsMiddle(order, index, used);
      assert samples[..used] == d;
    }

    /** Slots and ages name the same samples. */
    lemma LiveAt(s: int)
      requires Valid() && 0 <= s < used
      ensures samples[s] == live[Rank(s, index, used)]
    {
      RankSlotInverse(s, index, used);
    }
  }

  ghost function Slots(ranks: seq<int>, index: int, used: int): seq<int>
    requires -1 <= index < used
  {
    if ranks == [] then []
    else
      var n := |ranks| - 1;
      Slots(ranks[..n], index, used) + [if 0 <= ranks[n] < used then Slot(ranks[n], index, used) else -1]
  }

  lemma {:induction false} SlotsAt(ranks: seq<int>, index: int, used: int) returns (s: seq<int>)
    requires -1 <= index < used && Within(ranks, used)
    ensures s == Slots(ranks, index, used) && |s| == |ranks|
    ensures forall k :: 0 <= k < |s| ==> s[k] == Slot(ranks[k], index, used)
  {
    s := [];
    if ranks != [] {
      var n := |ranks| - 1;
      s := SlotsAt(ranks[..n], index, used) ;
      s := s + [Slot(ranks[n], index, used)];
    }
  }

  lemma SortLength(s: seq<int>, le: (int, int) -> bool)
    ensures |Sort(s, le)| == |s|
  {
    assert |multiset(Sort(s, le))| == |multiset(s)|;
  }

  /** The order the model's own sort leaves is an offset order. */
  lemma OffsetOrderIsSound(d: seq<FilterSample>)
    ensures IsOffsetOrder(Sort(Candidates(d), ByOffset(d)), d)
  {
    SortSorts(Candidates(d), ByOffset(d));
  }

  /** Any offset order names slots, each at most once. */
  lemma OffsetOrderShape(order: seq<int>, d: seq<FilterSample>)
    requires IsOffsetOrder(order, d)
    ensures |order| <= |d| && Within(order, |d|) && Distinct(order)
  {
    var c := CandidatesAreSlots(d);
    assert |order| == |multiset(order)| == |multiset(c)| == |c|;
    forall i | 0 <= i < |order| ensures 0 <= order[i] < |d| {
      assert order[i] in multiset(order);
      assert order[i] in c;
    }
    RearrangedDistinct(order, c);
  }

  lemma {:induction false} DistinctCounts(s: seq<int>, x: int)
    requires Distinct(s)
    ensures multiset(s)[x] <= 1
  {
    if s != [] {
      var n := |s| - 1;
      DistinctCounts(s[..n], x);
      assert s == s[..n] + [s[n]];
      assert x == s[n] ==> x !in s[..n];
    }
  }

  lemma RearrangedDistinct(a: seq<int>, b: seq<int>)
    requires Rearranges(a, b) && Distinct(b)
    ensures Distinct(a)
  {
    forall i, j | 0 <= i < j < |a| ensures a[i] != a[j] {
      if a[i] == a[j] {
        assert a == a[..j] + [a[j]] + a[j + 1..];
        assert a[..j][i] == a[j];
        assert multiset(a)[a[j]] >= 2;
        DistinctCounts(b, a[j]);
      }
    }
  }

  /** The list after trimming: ranks of the middle of the order, and nothing elsewhere. */
  ghost function Middle(order: seq<int>, index: int, used: int): seq<int>
    requires -1 <= index < used && Within(order, used)
  {
    var k := Trim(|order|);
    seq(used, c requires 0 <= c => if k <= c < |order| - k then Rank(order[c], index, used) else -1)
  }

  /** The ranks of the samples that survive the trimming. */
  ghost function Survivors(order: seq<int>, index: int, used: nat): set<int>
    requires -1 <= index < used && |order| <= used && Within(order, used)
  {
    Elements(Middle(order, index, used)[Trim(|order|)..|order| - Trim(|order|)])
  }

  /** What the filter selects when the offset order is `order`, the newest sample in slot `index`. */
  ghost function Selection(order: seq<int>, index: int, used: nat): seq<int>
    requires -1 <= index < used && |order| <= used && Within(order, used)
  {
    Slots(Ascending(Survivors(order, index, used), used), index, used)
  }

  lemma MiddleIsLoose(order: seq<int>, index: int, used: nat)
    requires -1 <= index < used && |order| <= used && Within(order, used) && Distinct(order)
    ensures var k := Trim(|order|);
            Loose(Middle(order, index, used), k, |order| - k)
  {
    var k := Trim(|order|);
    var m := Middle(order, index, used)[k..|order| - k];
    forall i, j | 0 <= i < j < |m| ensures m[i] != m[j] {
      assert order[k + i] != order[k + j];
      RankSlotInverse(order[k + i], index, used);
      RankSlotInverse(order[k + j], index, used);
    }
  }

  lemma SlotsStep(ranks: set<int>, i: nat, index: int, used: int)
    requires -1 <= index < used && i < used
    ensures Slots(Ascending(ranks, i + 1), index, used) ==
              Slots(Ascending(ranks, i), index, used) + if i in ranks then [Slot(i, index, used)] else []
  {
    var a, a' := Ascending(ranks, i), Ascending(ranks, i + 1);
    if i in ranks {
      var n := |a'| - 1;
      assert a' == a + [i] && a'[..n] == a && a'[n] == i;
    } else {
      assert a' == a;
    }
  }

  /** The selected samples are the middle ones of the offset order, each once and from the oldest
      to the newest. */
  lemma SelectionIsMiddle(order: seq<int>, index: int, used: nat)
    requires -1 <= index < used && |order| <= used && Within(order, used) && Distinct(order)
    ensures IsSelection(Selection(order, index, used), order, index, used)
  {
    var k := Trim(|order|);
    var middle := Middle(order, index, used)[k..|order| - k];
    MiddleIsLoose(order, index, used);
    var out := Selection(order, index, used);
    var a := OutShape(middle, out, index, used);
    SelectionMembers(order, middle, a, out, k, index, used);
  }

  lemma OutShape(middle: seq<int>, out: seq<int>, index: int, used: nat) returns (a: seq<int>)
    requires -1 <= index < used && Distinct(middle) && Within(middle, used)
    requires out == Slots(Ascending(Elements(middle), used), index, used)
    ensures |a| == |out| == |middle| && Within(out, used) && forall r :: r in a <==> r in middle
    ensures forall i :: 0 <= i < |out| ==> Rank(out[i], index, used) == a[i]
    ensures forall i, j :: 0 <= i < j < |out| ==> Rank(out[i], index, used) < Rank(out[j], index, used)
  {
    a := AscendingIsExact(Elements(middle), used);
    AscendingLength(a, middle);
    OutRanks(a, out, index, used);
  }

  lemma OutRanks(a: seq<int>, out: seq<int>, index: int, used: nat)
    requires -1 <= index < used && Within(a, used) && out == Slots(a, index, used)
    requires forall i, j :: 0 <= i < j < |a| ==> a[i] < a[j]
    ensures |out| == |a| && Within(out, used)
    ensures forall i :: 0 <= i < |out| ==> Rank(out[i], index, used) == a[i]
    ensures forall i, j :: 0 <= i < j < |out| ==> Rank(out[i], index, used) < Rank(out[j], index, used)
  {
    var s := SlotsAt(a, index, used);
    forall i | 0 <= i < |out| ensures Rank(out[i], index, used) == a[i] {
      RankSlotInverse(a[i], index, used);
    }
  }

  lemma SelectionMembers(order: seq<int>, middle: seq<int>, a: seq<int>, out: seq<int>, k: nat, index: int, used: nat)
    requires -1 <= index < used && Within(order, used) && Within(out, used)
    requires |middle| == |order| - 2 * k
    requires forall c :: 0 <= c < |middle| ==> middle[c] == Rank(order[k + c], index, used)
    requires |a| == |out| && forall i :: 0 <= i < |out| ==> Rank(out[i], index, used) == a[i]
    requires forall r :: r in a <==> r in middle
    ensures forall s :: s in out <==> s in order[k..|order| - k]
  {
    var mid := order[k..|order| - k];
    forall x | x in out ensures x in mid {
      var i :| 0 <= i < |out| && out[i] == x;
      assert a[i] in middle;
      var c :| 0 <= c < |middle| && middle[c] == a[i];
      RankSlotInverse(x, index, used);
      RankSlotInverse(order[k + c], index, used);
      assert mid[c] == x;
    }
    forall x | x in mid ensures x in out {
      var c :| 0 <= c < |mid| && mid[c] == x;
      assert middle[c] in a;
      var i :| 0 <= i < |a| && a[i] == middle[c];
      RankSlotInverse(x, index, used);
      RankSlotInverse(out[i], index, used);
    }
  }

  lemma AscendingLength(a: seq<int>, middle: seq<int>)
    requires forall i, j :: 0 <= i < j < |a| ==> a[i] < a[j]
    requires Distinct(middle) && forall r :: r in a <==> r in middle
    ensures |a| == |middle|
  {
    DistinctSet(a);
    DistinctSet(middle);
    assert Elements(a) == Elements(middle);
  }

  /** Where the ranks move when the ring takes one more sample. */
  lemma SlotAfterAdd(index: int, used: nat, index': int, used': nat, length: nat, r: int)
    requires 1 <= length && used <= length
    requires if used < length then index == used - 1 else 0 <= index < used
    requires index' == (if index + 1 < length then index + 1 else 0)
    requires used' == (if used < length then used + 1 else used) && 0 <= r < used'
    ensures r == used' - 1 ==> Slot(r, index', used') == index'
    ensures r < used' - 1 && used < length ==> Slot(r, index', used') == Slot(r, index, used) != index'
    ensures r < used' - 1 && used == length ==> Slot(r, index', used') == Slot(r + 1, index, used) != index'
  {
  }

  // ---------- aligning a pulse ----------

  /** Bring a pulse offset into half a period around zero. */
  function Fold(offset: real, rate: nat): real
    requires rate > 0
  {
    var r := rate as real;
    var o := offset - Truncate(InPeriods(offset, rate)) as real / r;
    if o < -0.5 / r then o + 1.0 / r
    else if o >= 0.5 / r then o - 1.0 / r
    else o
  }

  /** Move a pulse offset by whole periods to the one nearest to the reference sample. */
  function Align(offset: real, reference: real, rate: nat): real
    requires rate > 0
  {
    var r := rate as real;
    if reference - offset >= 0.0 then offset + Truncate(InPeriods(reference - offset, rate) + 0.5) as real / r
    else offset + Truncate(InPeriods(reference - offset, rate) - 0.5) as real / r
  }

  /** Measuring an offset in periods. */
  function InPeriods(x: real, rate: nat): real {
    x * rate as real
  }

  lemma PeriodsAdd(o: real, k: real, rate: nat)
    requires rate > 0
    ensures InPeriods(o + k / rate as real, rate) == InPeriods(o, rate) + k
    ensures InPeriods(o - k / rate as real, rate) == InPeriods(o, rate) - k
  {
    var q := k / rate as real;
    assert q * rate as real == k;
  }

  lemma PeriodsCompare(o: real, k: real, rate: nat)
    requires rate > 0
    ensures o < k / rate as real <==> InPeriods(o, rate) < k
  {
    var r, q := rate as real, k / rate as real;
    assert q * r == k;
    ProductSign(q - o, r);
    ProductSign(o - q, r);
    assert (q - o) * r == k - o * r;
    assert (o - q) * r == o * r - k;
  }

  lemma ProductSign(x: real, r: real)
    requires r > 0.0
    ensures x > 0.0 ==> x * r > 0.0
    ensures x >= 0.0 ==> x * r >= 0.0
  {
  }

  lemma PeriodsDifference(a: real, b: real, rate: nat)
    requires rate > 0
    ensures InPeriods(a - b, rate) == InPeriods(a, rate) - InPeriods(b, rate)
    ensures a - b >= 0.0 <==> InPeriods(a - b, rate) >= 0.0
  {
    ProductSign(a - b, rate as real);
    ProductSign(b - a, rate as real);
    assert (b - a) * rate as real == -((a - b) * rate as real);
  }

  /** Folding changes the offset by a whole number of periods and leaves it in [-0.5, 0.5) periods. */
  lemma FoldIsCongruent(offset: real, rate: nat) returns (periods: int)
    requires rate > 0
    ensures InPeriods(Fold(offset, rate), rate) == InPeriods(offset, rate) + periods as real
    ensures -0.5 <= InPeriods(Fold(offset, rate), rate) < 0.5
  {
    var t := Truncate(InPeriods(offset, rate));
    var o := offset - t as real / rate as real;
    PeriodsAdd(offset, t as real, rate);
    PeriodsCompare(o, -0.5, rate);
    PeriodsCompare(o, 0.5, rate);
    PeriodsAdd(o, 1.0, rate);
    periods := if InPeriods(o, rate) < -0.5 then 1 - t else if InPeriods(o, rate) >= 0.5 then -1 - t else -t;
  }

  /** Aligning changes the offset by a whole number of periods and leaves it within half a period
      of the reference sample. */
  lemma AlignIsNearest(offset: real, reference: real, rate: nat) returns (periods: int)
    requires rate > 0
    ensures InPeriods(Align(offset, reference, rate), rate) == InPeriods(offset, rate) + periods as real
    ensures -0.5 <= InPeriods(reference, rate) - InPeriods(Align(offset, reference, rate), rate) <= 0.5
  {
    var d := InPeriods(reference - offset, rate);
    PeriodsDifference(reference, offset, rate);
    periods := if reference - offset >= 0.0 then Truncate(d + 0.5) else Truncate(d - 0.5);
    PeriodsAdd(offset, periods as real, rate);
  }
}
