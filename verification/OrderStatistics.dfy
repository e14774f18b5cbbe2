/** The quickselect of regress.c, which finds one entry of the sorted order inside an array and
    marks the places it has settled, so that a later call can start from them. */
module OrderStatistics {
  import opened Ordering

  // ---------- the algorithm on values ----------

  function Exchange(x: seq<real>, i: nat, j: nat): (y: seq<real>)
    requires i < |x| && j < |x|
    ensures |y| == |x|
  {
    x[i := x[j]][j := x[i]]
  }

  /** while (x[l] < piv && l < v) l++ */
  function ScanUp(x: seq<real>, l: nat, v: nat, piv: real): (l': nat)
    requires l <= v < |x|
    ensures l <= l' <= v && (l' < v ==> x[l'] >= piv)
    ensures forall c :: l <= c < l' ==> x[c] < piv
    decreases v - l
  {
    if x[l] < piv && l < v then ScanUp(x, l + 1, v, piv) else l
  }

  /** while (x[r] > piv) r--, with the pivot itself at u as the sentinel */
  function ScanDown(x: seq<real>, u: nat, r: nat, piv: real): (r': nat)
    requires u <= r < |x| && x[u] <= piv
    ensures u <= r' <= r && x[r'] <= piv
    ensures forall c :: r' < c <= r ==> x[c] > piv
  {
    if x[r] > piv then ScanDown(x, u, r - 1, piv) else r
  }

  datatype Split = Split(x: seq<real>, l: nat, r: nat)

  /** The partition loop, the pivot being at u. */
  function Partition(x: seq<real>, u: nat, l: nat, r: nat, v: nat): (s: Split)
    requires u < l <= v < |x| && u <= r <= v
    ensures |s.x| == |x| && l <= s.l <= v && u <= s.r <= s.l
    decreases r
  {
    var l', r' := ScanUp(x, l, v, x[u]), ScanDown(x, u, r, x[u]);
    if r' <= l' then Split(x, l', r')
    else Partition(Exchange(x, l', r'), u, l' + 1, r' - 1, v)
  }

  /** The outcome of a search: the entry, the array and the flags it leaves, and whether it ever
      went on to the right of a pivot from the pivot's own place (u = l with l == r). */
  datatype Found = Found(entry: real, x: seq<real>, flags: seq<bool>, tied: bool)

  /** One round of the outer loop up to the choice of a side. */
  function Round(x: seq<real>, u: nat, v: nat): (s: Split)
    requires u + 2 <= v < |x|
    ensures |s.x| == |x| && u < s.l <= v && u <= s.r <= s.l && s.l <= s.r + 1
  {
    var y := Exchange(x, u, (u + v) / 2);
    PartitionBounds(y, u, u + 1, v, v);
    var s := Partition(y, u, u + 1, v, v);
    Split(Exchange(s.x, u, s.r), s.l, s.r)
  }

  function Search(x: seq<real>, flags: seq<bool>, u: nat, v: nat, index: nat): (found: Found)
    requires |flags| == |x| && u <= index <= v < |x|
    ensures |found.x| == |x| == |found.flags|
    decreases v - u
  {
    if v - u < 2 then
      var y := if x[v] < x[u] then Exchange(x, u, v) else x;
      Found(y[index], y, flags[v := true][u := true], false)
    else
      var s := Round(x, u, v);
      var f := flags[s.r := true];
      if index == s.r then Found(s.x[s.r], s.x, f, false)
      else if index < s.r then Search(s.x, f, u, s.r - 1, index)
      else
        var found := Search(s.x, f, s.l, v, index);
        found.(tied := found.tied || s.l == s.r)
  }

  /** while (u > 0 && !flags[u]) u--; if (flags[u]) u++ */
  function Left(flags: seq<bool>, u: nat): (u': nat)
    requires u < |flags|
    ensures u' <= u + 1 && (forall c :: u' <= c <= u ==> !flags[c])
    ensures !flags[u] ==> u' <= u
    ensures u' > 0 ==> flags[u' - 1]
  {
    if flags[u] then u + 1 else if u == 0 then 0 else Left(flags, u - 1)
  }

  function Right(flags: seq<bool>, v: nat): (v': int)
    requires v < |flags|
    ensures v - 1 <= v' < |flags| && (forall c :: v <= c <= v' ==> !flags[c])
    ensures !flags[v] ==> v <= v'
    ensures v' < |flags| - 1 ==> flags[v' + 1]
    decreases |flags| - v
  {
    if flags[v] then v - 1 else if v == |flags| - 1 then v else Right(flags, v + 1)
  }

  /** find_ordered_entry_with_flags */
  function OrderedEntry(x: seq<real>, flags: seq<bool>, index: nat): (found: Found)
    requires |flags| == |x| && index < |x|
    ensures |found.x| == |x| == |found.flags|
  {
    if flags[index] then Found(x[index], x, flags, false)
    else Search(x, flags, Left(flags, index), Right(flags, index), index)
  }

  function Cleared(n: nat): (f: seq<bool>)
    ensures |f| == n && forall m :: 0 <= m < n ==> !f[m]
  {
    seq(n, _ => false)
  }

  /** find_median, the two searches of an even-length array in the order they are written. */
  function Median(x: seq<real>): real
    requires |x| > 0
  {
    var k := |x| / 2;
    var first := OrderedEntry(x, Cleared(|x|), k);
    if |x| % 2 == 1 then first.entry
    else 0.5 * (first.entry + OrderedEntry(first.x, first.flags, k - 1).entry)
  }

  lemma MedianMeans(x: seq<real>)
    requires |x| > 0
    ensures var first := OrderedEntry(x, Cleared(|x|), |x| / 2);
            Median(x) == if |x| % 2 == 1 then first.entry
                         else 0.5 * (first.entry + OrderedEntry(first.x, first.flags, |x| / 2 - 1).entry)
  {
  }

  // ---------- what a partition does ----------

  /** An array up to the order of the entries u..v. */
  datatype View = View(before: seq<real>, bag: multiset<real>, after: seq<real>)

  ghost function Shuffle(x: seq<real>, u: nat, v: nat): View
    requires u <= v < |x|
  {
    View(x[..u], multiset(x[u..v + 1]), x[v + 1..])
  }

  lemma ExchangeShuffles(x: seq<real>, i: nat, j: nat, u: nat, v: nat)
    requires u <= i <= v < |x| && u <= j <= v
    ensures Shuffle(Exchange(x, i, j), u, v) == Shuffle(x, u, v)
  {
    var a, y := x[u..v + 1], Exchange(x, i, j);
    assert y[u..v + 1] == a[i - u := a[j - u]][j - u := a[i - u]];
    assert y[..u] == x[..u] && y[v + 1..] == x[v + 1..];
  }

  /** Every entry of the shuffled stretch was there before. */
  lemma ShuffledFrom(x: seq<real>, y: seq<real>, u: nat, v: nat, c: nat) returns (d: nat)
    requires |x| == |y| && u <= c <= v < |x| && Shuffle(x, u, v) == Shuffle(y, u, v)
    ensures u <= d <= v && y[c] == x[d]
  {
    assert y[u..v + 1][c - u] in Shuffle(y, u, v).bag;
    assert y[c] in x[u..v + 1];
    var k :| 0 <= k < v + 1 - u && x[u..v + 1][k] == y[c];
    d := u + k;
  }

  lemma ShuffledWhole(x: seq<real>, y: seq<real>, u: nat, v: nat)
    requires |x| == |y| && u <= v < |x| && Shuffle(x, u, v) == Shuffle(y, u, v)
    ensures multiset(x) == multiset(y)
  {
    var s, t := Shuffle(x, u, v), Shuffle(y, u, v);
    assert x == s.before + x[u..v + 1] + s.after;
    assert y == t.before + y[u..v + 1] + t.after;
  }

  lemma ShuffledOutside(x: seq<real>, y: seq<real>, u: nat, v: nat, c: nat)
    requires |x| == |y| && u <= v < |x| && Shuffle(x, u, v) == Shuffle(y, u, v)
    requires c < u || v < c < |x|
    ensures x[c] == y[c]
  {
    var s, t := Shuffle(x, u, v), Shuffle(y, u, v);
    if c < u {
      assert x[c] == s.before[c] && y[c] == t.before[c];
    } else {
      assert x[c] == s.after[c - v - 1] && y[c] == t.after[c - v - 1];
    }
  }

  ghost predicate AtMost(x: seq<real>, from: int, to: int, b: real) {
    forall c :: from <= c < to && 0 <= c < |x| ==> x[c] <= b
  }

  ghost predicate AtLeast(x: seq<real>, from: int, to: int, b: real) {
    forall c :: from <= c < to && 0 <= c < |x| ==> x[c] >= b
  }

  /** The state of a partition: u+1..l holds nothing above the pivot and r+1..v nothing below. */
  ghost predicate Halves(x: seq<real>, u: nat, l: int, r: int, v: nat) {
    u < l <= v < |x| && u <= r <= v && l <= r + 1 && AtMost(x, u + 1, l, x[u]) && AtLeast(x, r + 1, v + 1, x[u])
  }

  /** The scans stop next to each other or before crossing, whatever the array. */
  lemma ScansMeet(x: seq<real>, u: nat, l: nat, r: nat, v: nat)
    requires Halves(x, u, l, r, v)
    ensures var l', r' := ScanUp(x, l, v, x[u]), ScanDown(x, u, r, x[u]);
            && l' <= r' + 1
            && AtMost(x, u + 1, l', x[u]) && AtLeast(x, r' + 1, v + 1, x[u])
            && (l' == r' < v ==> x[r'] == x[u])
            && (l' < r' ==> x[l'] >= x[u] >= x[r'])
  {
    var l', r' := ScanUp(x, l, v, x[u]), ScanDown(x, u, r, x[u]);
    // the entries at which a scan that went too far would contradict the other half
    var right, left := if r + 1 <= v then x[r + 1] else x[v], x[l' - 1];
  }

  lemma PartitionStep(x: seq<real>, u: nat, l: nat, r: nat, v: nat)
    requires u < l <= v < |x| && u <= r <= v
    ensures var l', r' := ScanUp(x, l, v, x[u]), ScanDown(x, u, r, x[u]);
            && l <= l' <= v && u <= r' <= r
            && Partition(x, u, l, r, v) ==
                 if r' <= l' then Split(x, l', r') else Partition(Exchange(x, l', r'), u, l' + 1, r' - 1, v)
  {
  }

  lemma ExchangeHalves(x: seq<real>, u: nat, l: nat, r: nat, v: nat)
    requires u < l < r <= v < |x| && x[l] >= x[u] >= x[r]
    requires AtMost(x, u + 1, l, x[u]) && AtLeast(x, r + 1, v + 1, x[u])
    ensures Halves(Exchange(x, l, r), u, l + 1, r - 1, v) && Exchange(x, l, r)[u] == x[u]
  {
  }

  lemma {:induction false} PartitionBounds(x: seq<real>, u: nat, l: nat, r: nat, v: nat)
    requires Halves(x, u, l, r, v)
    ensures var s := Partition(x, u, l, r, v);
            && Halves(s.x, u, s.l, s.r, v) && s.x[u] == x[u] && s.x[s.r] <= x[u]
            && (s.l == s.r < v ==> s.x[s.r] == x[u])
    decreases r
  {
    hide ScanUp, ScanDown, Exchange, AtMost, AtLeast;
    var l', r' := ScanUp(x, l, v, x[u]), ScanDown(x, u, r, x[u]);
    ScansMeet(x, u, l, r, v);
    if r' > l' {
      ExchangeHalves(x, u, l', r', v);
      PartitionBounds(Exchange(x, l', r'), u, l' + 1, r' - 1, v);
    }
  }

  lemma {:induction false} PartitionShuffles(x: seq<real>, u: nat, l: nat, r: nat, v: nat)
    requires u < l <= v < |x| && u <= r <= v
    ensures Shuffle(Partition(x, u, l, r, v).x, u, v) == Shuffle(x, u, v)
    decreases r
  {
    hide Shuffle, Exchange;
    var l', r' := ScanUp(x, l, v, x[u]), ScanDown(x, u, r, x[u]);
    if r' > l' {
      ExchangeShuffles(x, l', r', u, v);
      PartitionShuffles(Exchange(x, l', r'), u, l' + 1, r' - 1, v);
    }
  }

  lemma RoundShuffles(x: seq<real>, u: nat, v: nat)
    requires u + 2 <= v < |x|
    ensures Shuffle(Round(x, u, v).x, u, v) == Shuffle(x, u, v)
  {
    var m := (u + v) / 2;
    var y := Exchange(x, u, m);
    PartitionBounds(y, u, u + 1, v, v);
    var p := Partition(y, u, u + 1, v, v);
    ExchangeShuffles(x, u, m, u, v);
    PartitionShuffles(y, u, u + 1, v, v);
    ExchangeShuffles(p.x, u, p.r, u, v);
  }

  /** After a round the pivot is in its place between the two sides; the sides meet at the pivot's
      own place only when another entry equals it. */
  lemma RoundFacts(x: seq<real>, u: nat, v: nat)
    requires u + 2 <= v < |x|
    ensures var s := Round(x, u, v);
            && AtMost(s.x, u, s.r, s.x[s.r]) && AtLeast(s.x, s.r, v + 1, s.x[s.r])
            && (s.l == s.r < v ==> s.r > u && s.x[u] == s.x[s.r])
  {
    hide Partition, Exchange, AtMost, AtLeast, Halves;
    var y := Exchange(x, u, (u + v) / 2);
    NothingPartitioned(y, u, v);
    PartitionBounds(y, u, u + 1, v, v);
    var p := Partition(y, u, u + 1, v, v);
    PivotInPlace(p.x, u, p.l, p.r, v);
  }

  lemma NothingPartitioned(x: seq<real>, u: nat, v: nat)
    requires u < v < |x|
    ensures Halves(x, u, u + 1, v, v)
  {
  }

  /** Exchanging the pivot with the last entry that does not exceed it puts it between the two sides. */
  lemma PivotInPlace(x: seq<real>, u: nat, l: nat, r: nat, v: nat)
    requires Halves(x, u, l, r, v) && r <= l && x[r] <= x[u] && (l == r < v ==> x[r] == x[u])
    ensures var y := Exchange(x, u, r);
            && AtMost(y, u, r, y[r]) && AtLeast(y, r, v + 1, y[r])
            && (l == r < v ==> r > u && y[u] == y[r])
  {
  }

  // ---------- what a search finds ----------

  /** The entry at m is where the sorted order has it. */
  ghost predicate Settled(x: seq<real>, m: nat) {
    m < |x| && AtMost(x, 0, m, x[m]) && AtLeast(x, m, |x|, x[m])
  }

  /** The entries u..v are the ones the sorted order has there. */
  ghost predicate Apart(x: seq<real>, u: nat, v: nat) {
    && u <= v < |x|
    && (forall a, c :: 0 <= a < u <= c <= v ==> x[a] <= x[c])
    && (forall c, b :: u <= c <= v < b < |x| ==> x[c] <= x[b])
  }

  lemma ApartAfterShuffle(x: seq<real>, y: seq<real>, u: nat, v: nat)
    requires |x| == |y| && Apart(x, u, v) && Shuffle(x, u, v) == Shuffle(y, u, v)
    ensures Apart(y, u, v)
  {
    forall a, c | 0 <= a < u <= c <= v ensures y[a] <= y[c] {
      var d := ShuffledFrom(x, y, u, v, c);
      ShuffledOutside(x, y, u, v, a);
    }
    forall c, b | u <= c <= v < b < |x| ensures y[c] <= y[b] {
      var d := ShuffledFrom(x, y, u, v, c);
      ShuffledOutside(x, y, u, v, b);
    }
  }

  /** After a round both sides are apart and the pivot is settled. */
  lemma ApartAfterRound(x: seq<real>, u: nat, v: nat)
    requires u + 2 <= v && Apart(x, u, v)
    ensures var s := Round(x, u, v);
            && multiset(s.x) == multiset(x)
            && Settled(s.x, s.r)
            && (u < s.r ==> Apart(s.x, u, s.r - 1))
            && Apart(s.x, s.l, v)
  {
    var s := Round(x, u, v);
    RoundShuffles(x, u, v);
    RoundFacts(x, u, v);
    hide Round, Shuffle, Apart, Settled;
    ApartAfterShuffle(x, s.x, u, v);
    ShuffledWhole(x, s.x, u, v);
    ApartSides(s.x, u, v, s.r, s.l);
  }

  lemma ApartSides(x: seq<real>, u: nat, v: nat, r: nat, l: nat)
    requires Apart(x, u, v) && u <= r <= l <= v && u < l <= r + 1
    requires AtMost(x, u, r, x[r]) && AtLeast(x, r, v + 1, x[r]) && (l == r < v ==> r > u && x[u] == x[r])
    ensures Settled(x, r) && (u < r ==> Apart(x, u, r - 1)) && Apart(x, l, v)
  {
  }

  /** The search permutes the array and settles the entry asked for, ties or not. */
  lemma {:induction false} SearchSettles(x: seq<real>, flags: seq<bool>, u: nat, v: nat, index: nat)
    requires |flags| == |x| && u <= index <= v < |x| && Apart(x, u, v)
    ensures var found := Search(x, flags, u, v, index);
            && multiset(found.x) == multiset(x)
            && found.entry == found.x[index] && Settled(found.x, index) && found.flags[index]
    decreases v - u
  {
    hide Round, Apart, Shuffle, Exchange;
    if v - u < 2 {
      PairFacts(x, u, v);
    } else {
      var s := Round(x, u, v);
      ApartAfterRound(x, u, v);
      var f := flags[s.r := true];
      if index < s.r {
        SearchSettles(s.x, f, u, s.r - 1, index);
      } else if index > s.r {
        SearchSettles(s.x, f, s.l, v, index);
      }
    }
  }

  /** Whatever the flags, a call only permutes the array. */
  lemma EntryPermutes(x: seq<real>, flags: seq<bool>, index: nat)
    requires |flags| == |x| && index < |x|
    ensures multiset(OrderedEntry(x, flags, index).x) == multiset(x)
  {
    if !flags[index] {
      var u, v := Left(flags, index), Right(flags, index);
      SearchShuffles(x, flags, u, v, index);
      ShuffledWhole(x, Search(x, flags, u, v, index).x, u, v);
    }
  }

  /** Reordering part of a stretch reorders the stretch. */
  lemma ShuffledWider(x: seq<real>, y: seq<real>, u: nat, v: nat, a: nat, b: nat)
    requires |x| == |y| && a <= u <= v <= b < |x| && Shuffle(x, u, v) == Shuffle(y, u, v)
    ensures Shuffle(x, a, b) == Shuffle(y, a, b)
  {
    Pieces(x, u, v, a, b);
    Pieces(y, u, v, a, b);
    var s, t := Shuffle(x, u, v), Shuffle(y, u, v);
    assert x[..u] == s.before == t.before == y[..u] && x[v + 1..] == s.after == t.after == y[v + 1..];
  }

  lemma Pieces(x: seq<real>, u: nat, v: nat, a: nat, b: nat)
    requires a <= u <= v <= b < |x|
    ensures x[..a] == x[..u][..a] && x[b + 1..] == x[v + 1..][b - v..]
    ensures x[a..b + 1] == x[..u][a..] + x[u..v + 1] + x[v + 1..][..b - v]
  {
  }

  /** A search only reorders its stretch. */
  lemma {:induction false} SearchShuffles(x: seq<real>, flags: seq<bool>, u: nat, v: nat, index: nat)
    requires |flags| == |x| && u <= index <= v < |x|
    ensures Shuffle(Search(x, flags, u, v, index).x, u, v) == Shuffle(x, u, v)
    decreases v - u
  {
    hide Round, Shuffle, Exchange;
    if v - u < 2 {
      ExchangeShuffles(x, u, v, u, v);
    } else {
      var s := Round(x, u, v);
      RoundShuffles(x, u, v);
      var f := flags[s.r := true];
      if index < s.r {
        SearchShuffles(s.x, f, u, s.r - 1, index);
        ShuffledWider(s.x, Search(s.x, f, u, s.r - 1, index).x, u, s.r - 1, u, v);
      } else if index > s.r {
        SearchShuffles(s.x, f, s.l, v, index);
        ShuffledWider(s.x, Search(s.x, f, s.l, v, index).x, s.l, v, u, v);
      }
    }
  }

  lemma PairFacts(x: seq<real>, u: nat, v: nat)
    requires Apart(x, u, v) && v - u < 2
    ensures var y := if x[v] < x[u] then Exchange(x, u, v) else x;
            && multiset(y) == multiset(x) && Shuffle(y, u, v) == Shuffle(x, u, v)
            && Settled(y, u) && Settled(y, v)
  {
    var y := if x[v] < x[u] then Exchange(x, u, v) else x;
    ExchangeShuffles(x, u, v, u, v);
    ShuffledWhole(x, y, u, v);
    ApartAfterShuffle(x, y, u, v);
  }

  // ---------- the flags ----------

  /** Flagged entries are settled. */
  ghost predicate FlagsSound(x: seq<real>, flags: seq<bool>) {
    |flags| == |x| && forall m :: 0 <= m < |x| && flags[m] ==> Settled(x, m)
  }

  ghost predicate Unflagged(flags: seq<bool>, u: nat, v: int) {
    forall m :: u <= m <= v && m < |flags| ==> !flags[m]
  }

  /** Shuffling between settled entries leaves them settled. */
  lemma SettledAfterShuffle(x: seq<real>, y: seq<real>, u: nat, v: nat, m: nat)
    requires |x| == |y| && u <= v < |x| && Shuffle(x, u, v) == Shuffle(y, u, v)
    requires Settled(x, m) && (m < u || v < m)
    ensures Settled(y, m)
  {
    ShuffledOutside(x, y, u, v, m);
    forall c | 0 <= c < |x| ensures (c < m ==> y[c] <= y[m]) && (c >= m ==> y[c] >= y[m]) {
      if u <= c <= v {
        var d := ShuffledFrom(x, y, u, v, c);
      } else {
        ShuffledOutside(x, y, u, v, c);
      }
    }
  }

  lemma FlagsAfterShuffle(x: seq<real>, y: seq<real>, flags: seq<bool>, u: nat, v: nat)
    requires |x| == |y| && u <= v < |x| && Shuffle(x, u, v) == Shuffle(y, u, v)
    requires FlagsSound(x, flags) && Unflagged(flags, u, v)
    ensures FlagsSound(y, flags)
  {
    forall m | 0 <= m < |y| && flags[m] ensures Settled(y, m) {
      SettledAfterShuffle(x, y, u, v, m);
    }
  }

  /** Unless it went on from a pivot's own place, a search leaves only settled entries flagged. */
  lemma {:induction false} SearchKeepsFlags(x: seq<real>, flags: seq<bool>, u: nat, v: nat, index: nat)
    requires u <= index <= v < |x| && Apart(x, u, v) && FlagsSound(x, flags) && Unflagged(flags, u, v)
    requires !Search(x, flags, u, v, index).tied
    ensures var found := Search(x, flags, u, v, index);
            FlagsSound(found.x, found.flags)
    decreases v - u
  {
    hide Round;
    if v - u < 2 {
      PairFacts(x, u, v);
      FlagsAfterShuffle(x, Search(x, flags, u, v, index).x, flags, u, v);
    } else {
      var s := Round(x, u, v);
      RoundShuffles(x, u, v);
      ApartAfterRound(x, u, v);
      FlagsAfterShuffle(x, s.x, flags, u, v);
      var f := flags[s.r := true];
      if index < s.r {
        SearchKeepsFlags(s.x, f, u, s.r - 1, index);
      } else if index > s.r {
        SearchKeepsFlags(s.x, f, s.l, v, index);
      }
    }
  }

  // ---------- distinct entries never tie ----------

  ghost predicate Once(x: seq<real>) {
    forall e :: multiset(x)[e] <= 1
  }

  lemma DistinctIsOnce(x: seq<real>)
    requires forall i, j :: 0 <= i < j < |x| ==> x[i] != x[j]
    ensures Once(x)
  {
    forall e ensures multiset(x)[e] <= 1 {
      CountsOnce(x, e);
    }
  }

  lemma {:induction false} CountsOnce(x: seq<real>, e: real)
    requires forall i, j :: 0 <= i < j < |x| ==> x[i] != e || x[j] != e
    ensures multiset(x)[e] <= 1
  {
    if x != [] {
      var n := |x| - 1;
      CountsOnce(x[..n], e);
      assert x == x[..n] + [x[n]];
      assert e == x[n] ==> e !in x[..n];
    }
  }

  lemma TwiceCounts(x: seq<real>, i: nat, j: nat)
    requires i < j < |x| && x[i] == x[j]
    ensures multiset(x)[x[j]] > 1
  {
    assert x == x[..j] + [x[j]] + x[j + 1..];
    assert multiset(x)[x[j]] == multiset(x[..j])[x[j]] + 1 + multiset(x[j + 1..])[x[j]];
    assert x[..j][i] in multiset(x[..j]);
  }

  lemma {:induction false} DistinctNeverTies(x: seq<real>, flags: seq<bool>, u: nat, v: nat, index: nat)
    requires |flags| == |x| && u <= index <= v && Apart(x, u, v) && Once(x)
    ensures !Search(x, flags, u, v, index).tied
    decreases v - u
  {
    hide Round;
    if v - u >= 2 {
      var s := Round(x, u, v);
      RoundFacts(x, u, v);
      ApartAfterRound(x, u, v);
      var f := flags[s.r := true];
      if index < s.r {
        DistinctNeverTies(s.x, f, u, s.r - 1, index);
      } else if index > s.r {
        DistinctNeverTies(s.x, f, s.l, v, index);
        if s.l == s.r {
          TwiceCounts(s.x, u, s.r);
        }
      }
    }
  }

  // ---------- the promises of the two functions ----------

  predicate AtMostOrder(a: real, b: real) { a <= b }

  lemma {:induction false} CountBelow(x: seq<real>, m: real) returns (n: nat)
    ensures n == Sum(x, (e: real) => if e <= m then 1 else 0) <= |x|
  {
    n := 0;
    if x != [] {
      n := CountBelow(x[..|x| - 1], m);
      n := n + if x[|x| - 1] <= m then 1 else 0;
    }
  }

  lemma {:induction false} AllBelow(x: seq<real>, m: real)
    requires forall c :: 0 <= c < |x| ==> x[c] <= m
    ensures Sum(x, (e: real) => if e <= m then 1 else 0) == |x|
  {
    if x != [] {
      AllBelow(x[..|x| - 1], m);
    }
  }

  lemma {:induction false} NoneBelow(x: seq<real>, m: real)
    requires forall c :: 0 <= c < |x| ==> x[c] > m
    ensures Sum(x, (e: real) => if e <= m then 1 else 0) == 0
  {
    if x != [] {
      NoneBelow(x[..|x| - 1], m);
    }
  }

  lemma SettledIsLeast(x: seq<real>, y: seq<real>, m: nat)
    requires multiset(x) == multiset(y) && Settled(x, m) && Settled(y, m)
    ensures x[m] >= y[m]
  {
    if x[m] < y[m] {
      var f := (e: real) => if e <= x[m] then 1 else 0;
      SumRearranged(x, y, f);
      assert x == x[..m + 1] + x[m + 1..] && y == y[..m] + y[m..];
      SumSplit(x[..m + 1], x[m + 1..], f);
      SumSplit(y[..m], y[m..], f);
      AllBelow(x[..m + 1], x[m]);
      var right := CountBelow(x[m + 1..], x[m]);
      NoneBelow(y[m..], x[m]);
      var left := CountBelow(y[..m], x[m]);
      assert false;
    }
  }

  /** A settled entry is the one the sorted array has in that place. */
  lemma SettledIsSorted(x: seq<real>, y: seq<real>, m: nat)
    requires multiset(x) == multiset(y) && Settled(x, m)
    ensures |Sort(y, AtMostOrder)| == |y| == |x| && x[m] == Sort(y, AtMostOrder)[m]
  {
    var s := Sort(y, AtMostOrder);
    SortSorts(y, AtMostOrder);
    assert |s| == |multiset(s)| == |multiset(y)| == |y|;
    assert |x| == |multiset(x)| == |multiset(y)|;
    assert Settled(s, m);
    SettledIsLeast(x, s, m);
    SettledIsLeast(s, x, m);
  }

  lemma RangeIsApart(x: seq<real>, flags: seq<bool>, index: nat)
    requires FlagsSound(x, flags) && index < |x| && !flags[index]
    ensures var u, v := Left(flags, index), Right(flags, index);
            u <= index <= v < |x| && Apart(x, u, v) && Unflagged(flags, u, v)
  {
    var u, v := Left(flags, index), Right(flags, index);
    assert u > 0 ==> Settled(x, u - 1);
    assert v < |x| - 1 ==> Settled(x, v + 1);
  }

  /** From sound flags a call permutes the array and returns the index-th smallest entry. The flags
      stay sound unless the call went on from a pivot's own place, which distinct entries rule out. */
  lemma EntryIsOrderStatistic(x: seq<real>, flags: seq<bool>, index: nat)
    requires FlagsSound(x, flags) && index < |x|
    ensures var found := OrderedEntry(x, flags, index);
            && |Sort(x, AtMostOrder)| == |x| && found.entry == Sort(x, AtMostOrder)[index]
            && multiset(found.x) == multiset(x) && found.flags[index]
            && (!found.tied ==> FlagsSound(found.x, found.flags))
            && (Once(x) ==> !found.tied)
  {
    var found := OrderedEntry(x, flags, index);
    if !flags[index] {
      RangeIsApart(x, flags, index);
      var u, v := Left(flags, index), Right(flags, index);
      SearchSettles(x, flags, u, v, index);
      if !found.tied {
        SearchKeepsFlags(x, flags, u, v, index);
      }
      if Once(x) {
        DistinctNeverTies(x, flags, u, v, index);
      }
    }
    SettledIsSorted(found.x, x, index);
  }

  function ExactMedian(x: seq<real>): real
    requires |x| > 0
  {
    SortKeepsLength(x);
    var s, k := Sort(x, AtMostOrder), |x| / 2;
    if |x| % 2 == 1 then s[k] else 0.5 * (s[k] + s[k - 1])
  }

  lemma SortKeepsLength(x: seq<real>)
    ensures |Sort(x, AtMostOrder)| == |x|
  {
    assert |multiset(Sort(x, AtMostOrder))| == |multiset(x)|;
  }

  ghost predicate FirstSearchTies(x: seq<real>)
    requires |x| > 0
  {
    OrderedEntry(x, Cleared(|x|), |x| / 2).tied
  }

  /** The median is exact for an odd number of entries, and for an even number unless the first of
      the two searches goes on from a pivot's own place. */
  lemma MedianIsExact(x: seq<real>)
    requires |x| > 0 && (|x| % 2 == 0 ==> !FirstSearchTies(x))
    ensures Median(x) == ExactMedian(x)
  {
    hide OrderedEntry, Sort;
    var k := |x| / 2;
    EntryIsOrderStatistic(x, Cleared(|x|), k);
    if |x| % 2 == 0 {
      var first := OrderedEntry(x, Cleared(|x|), k);
      EntryIsOrderStatistic(first.x, first.flags, k - 1);
      SortsAgree(first.x, x, k - 1);
    }
  }

  lemma SortsAgree(x: seq<real>, y: seq<real>, m: nat)
    requires multiset(x) == multiset(y) && m < |x|
    ensures |x| == |y| == |Sort(x, AtMostOrder)| == |Sort(y, AtMostOrder)|
    ensures Sort(x, AtMostOrder)[m] == Sort(y, AtMostOrder)[m]
  {
    hide Sort;
    SortKeepsLength(x);
    SortKeepsLength(y);
    SortSorts(x, AtMostOrder);
    assert |x| == |multiset(x)| == |multiset(y)| == |y|;
    SettledIsSorted(Sort(x, AtMostOrder), y, m);
  }

  lemma DistinctMedianIsExact(x: seq<real>)
    requires |x| > 0 && forall i, j :: 0 <= i < j < |x| ==> x[i] != x[j]
    ensures Median(x) == ExactMedian(x)
  {
    DistinctIsOnce(x);
    EntryIsOrderStatistic(x, Cleared(|x|), |x| / 2);
    MedianIsExact(x);
  }

  // ---------- exactly when the median of an even number of entries is right ----------

  /** The largest of the entries u..v. */
  ghost predicate LargestOf(x: seq<real>, u: nat, v: nat, e: real)
    requires u <= v < |x|
  {
    AtMost(x, u, v + 1, e) && exists c :: u <= c <= v && x[c] == e
  }

  lemma LargestAfterShuffle(x: seq<real>, y: seq<real>, u: nat, v: nat, e: real)
    requires |x| == |y| && u <= v < |x| && Shuffle(x, u, v) == Shuffle(y, u, v) && LargestOf(x, u, v, e)
    ensures LargestOf(y, u, v, e)
  {
    forall c: nat | u <= c <= v ensures y[c] <= e {
      var d := ShuffledFrom(x, y, u, v, c);
    }
    var c :| u <= c <= v && x[c] == e;
    var d := ShuffledFrom(y, x, u, v, c);
  }

  lemma LargestOnTheRight(x: seq<real>, u: nat, r: nat, l: nat, v: nat, e: real)
    requires u <= r <= l <= v < |x| && l <= r + 1
    requires AtMost(x, u, r, x[r]) && AtLeast(x, r, v + 1, x[r]) && LargestOf(x, l, v, e)
    ensures LargestOf(x, u, v, e)
  {
    var c :| l <= c <= v && x[c] == e;
    assert x[c] >= x[r];
  }

  /** A search for the last entry of a stretch returns the largest, whatever lies outside it. */
  lemma {:induction false} SearchFindsLargest(x: seq<real>, flags: seq<bool>, u: nat, v: nat)
    requires |flags| == |x| && u <= v < |x|
    ensures LargestOf(x, u, v, Search(x, flags, u, v, v).entry)
    decreases v - u
  {
    if v - u < 2 {
      var c := if x[v] < x[u] then u else v;
      assert x[c] == Search(x, flags, u, v, v).entry;
    } else {
      var s := Round(x, u, v);
      RoundShuffles(x, u, v);
      RoundFacts(x, u, v);
      hide Round, Shuffle, LargestOf;
      if v == s.r {
        PivotIsLargest(s.x, u, v);
        LargestAfterShuffle(s.x, x, u, v, s.x[v]);
      } else {
        SearchFindsLargest(s.x, flags[s.r := true], s.l, v);
        var e := Search(s.x, flags[s.r := true], s.l, v, v).entry;
        LargestOnTheRight(s.x, u, s.r, s.l, v, e);
        LargestAfterShuffle(s.x, x, u, v, e);
      }
    }
  }

  lemma PivotIsLargest(x: seq<real>, u: nat, v: nat)
    requires u <= v < |x| && AtMost(x, u, v, x[v])
    ensures LargestOf(x, u, v, x[v])
  {
  }

  lemma LargestAt(x: seq<real>, u: nat, v: nat, e: real) returns (c: nat)
    requires u <= v < |x| && LargestOf(x, u, v, e)
    ensures u <= c <= v && x[c] == e
  {
    c :| u <= c <= v && x[c] == e;
  }

  /** Below a settled place the sorted order ends with the largest entry. */
  lemma LargestIsSorted(x: seq<real>, y: seq<real>, k: nat, e: real)
    requires multiset(x) == multiset(y) && 0 < k < |x| && Settled(x, k) && LargestOf(x, 0, k - 1, e)
    ensures |Sort(y, AtMostOrder)| == |x| == |y| && Sort(y, AtMostOrder)[k - 1] == e
  {
    hide Settled, Sort, LargestOf, Exchange, Shuffle;
    var c := LargestAt(x, 0, k - 1, e);
    var z := Exchange(x, c, k - 1);
    LargestSettles(x, k, c);
    ExchangeShuffles(x, c, k - 1, 0, k - 1);
    ShuffledWhole(x, z, 0, k - 1);
    SettledIsSorted(z, y, k - 1);
  }

  lemma LargestSettles(x: seq<real>, k: nat, c: nat)
    requires 0 < k && c < k && Settled(x, k) && LargestOf(x, 0, k - 1, x[c])
    ensures Settled(Exchange(x, c, k - 1), k - 1) && Exchange(x, c, k - 1)[k - 1] == x[c]
  {
    var z := Exchange(x, c, k - 1);
    forall i: nat | i < k - 1 ensures z[i] <= x[c] {
      assert z[i] == x[if i == c then k - 1 else i];
    }
  }

  /** Where the second search of the median starts from, after a first one that left these flags. */
  function SecondStart(flags: seq<bool>, k: nat): (u: nat)
    requires 0 < k < |flags|
    ensures u < k
  {
    if flags[k - 1] then k - 1 else Left(flags, k - 1)
  }

  /** No entry to the left of the stretch u..k-1 exceeds all of it. */
  ghost predicate StretchDominates(x: seq<real>, u: nat, k: nat)
    requires u < k <= |x|
  {
    exists c: nat :: u <= c < k && AtMost(x, 0, u, x[c])
  }

  lemma SecondEntry(x: seq<real>, flags: seq<bool>, k: nat)
    requires |flags| == |x| && 0 < k < |x| && flags[k]
    ensures LargestOf(x, SecondStart(flags, k), k - 1, OrderedEntry(x, flags, k - 1).entry)
  {
    if flags[k - 1] {
      PivotIsLargest(x, k - 1, k - 1);
    } else {
      var u := Left(flags, k - 1);
      assert Right(flags, k - 1) == k - 1;
      SearchFindsLargest(x, flags, u, k - 1);
      hide Search, LargestOf;
    }
  }

  lemma LargestExists(x: seq<real>, n: nat) returns (e: real)
    requires n < |x|
    ensures LargestOf(x, 0, n, e)
  {
    if n == 0 {
      e := x[0];
      assert x[0] == e;
    } else {
      var d := LargestExists(x, n - 1);
      if x[n] >= d {
        e := x[n];
        assert x[n] == e;
      } else {
        e := d;
        var c :| 0 <= c <= n - 1 && x[c] == d;
      }
    }
  }

  lemma DominatesMeans(x: seq<real>, u: nat, k: nat, e: real, d: real)
    requires u < k <= |x| && LargestOf(x, u, k - 1, e) && LargestOf(x, 0, k - 1, d)
    ensures StretchDominates(x, u, k) <==> e == d
  {
    var b :| u <= b <= k - 1 && x[b] == e;
    var a :| 0 <= a <= k - 1 && x[a] == d;
    if StretchDominates(x, u, k) {
      var c: nat :| u <= c < k && AtMost(x, 0, u, x[c]);
      assert x[c] <= e && x[a] <= e;
    }
    if e == d {
      assert AtMost(x, 0, u, x[b]);
    }
  }

  /** The median of an even number of entries is exact exactly when, after the first search, no entry
      to the left of the stretch that the second one starts from exceeds all of that stretch. */
  lemma EvenMedianExactlyWhen(x: seq<real>)
    requires |x| > 0 && |x| % 2 == 0
    ensures var k := |x| / 2;
            var first := OrderedEntry(x, Cleared(|x|), k);
            Median(x) == ExactMedian(x) <==> StretchDominates(first.x, SecondStart(first.flags, k), k)
  {
    hide OrderedEntry, Cleared, Median, Sort, Settled, StretchDominates, LargestOf, SecondStart;
    var k := |x| / 2;
    var first := OrderedEntry(x, Cleared(|x|), k);
    MedianMeans(x);
    FirstIsSettled(x, k);
    FirstIsSorted(x, k);
    SecondEntry(first.x, first.flags, k);
    var d := LargestExists(first.x, k - 1);
    LargestIsSorted(first.x, x, k, d);
    DominatesMeans(first.x, SecondStart(first.flags, k), k, OrderedEntry(first.x, first.flags, k - 1).entry, d);
  }

  lemma FirstIsSorted(x: seq<real>, k: nat)
    requires k < |x|
    ensures |Sort(x, AtMostOrder)| == |x| && OrderedEntry(x, Cleared(|x|), k).entry == Sort(x, AtMostOrder)[k]
  {
    EntryIsOrderStatistic(x, Cleared(|x|), k);
  }

  // ---------- when the values alone make it right ----------

  /** No value below h is repeated. */
  ghost predicate RepeatsFrom(bag: multiset<real>, h: real) {
    forall e :: bag[e] > 1 ==> e >= h
  }

  /** A search that went on from a pivot's own place, with nothing repeated below the entry it finds,
      leaves that entry in the place before as well. */
  lemma {:induction false} TieIsAtTheEntry(x: seq<real>, flags: seq<bool>, u: nat, v: nat, index: nat)
    requires |flags| == |x| && u <= index <= v < |x| && Apart(x, u, v) && Search(x, flags, u, v, index).tied
    requires RepeatsFrom(multiset(x), Search(x, flags, u, v, index).entry)
    ensures var found := Search(x, flags, u, v, index);
            index > 0 && found.x[index - 1] == found.entry
    decreases v - u
  {
    hide Round, Apart, Shuffle, Exchange, RepeatsFrom;
    if v - u >= 2 {
      var s := Round(x, u, v);
      ApartAfterRound(x, u, v);
      var f := flags[s.r := true];
      if index < s.r {
        TieIsAtTheEntry(s.x, f, u, s.r - 1, index);
      } else if index > s.r {
        if s.l == s.r {
          RoundFacts(x, u, v);
          TieAtPivot(s.x, f, u, s.r, v, index);
        } else {
          TieIsAtTheEntry(s.x, f, s.l, v, index);
        }
      }
    }
  }

  lemma TieAtPivot(x: seq<real>, flags: seq<bool>, u: nat, r: nat, v: nat, index: nat)
    requires |flags| == |x| && u < r < index <= v < |x| && Apart(x, r, v)
    requires x[u] == x[r] && Settled(x, r) && AtLeast(x, r, v + 1, x[r])
    requires RepeatsFrom(multiset(x), Search(x, flags, r, v, index).entry)
    ensures var found := Search(x, flags, r, v, index);
            found.x[index - 1] == found.entry
  {
    var found := Search(x, flags, r, v, index);
    SearchSettles(x, flags, r, v, index);
    SearchShuffles(x, flags, r, v, index);
    TwiceCounts(x, u, r);
    hide Search, Shuffle, Apart, Settled, AtLeast;
    EqualBefore(x, found.x, r, v, index, x[r]);
  }

  /** If what was shuffled is at least p and the settled entry is at most p, the entry before it equals it. */
  lemma EqualBefore(x: seq<real>, y: seq<real>, r: nat, v: nat, index: nat, p: real)
    requires |x| == |y| && r < index <= v < |x| && Shuffle(y, r, v) == Shuffle(x, r, v)
    requires AtLeast(x, r, v + 1, p) && Settled(y, index) && y[index] <= p
    ensures y[index - 1] == y[index]
  {
    hide Shuffle;
    var c := ShuffledFrom(x, y, r, v, index);
    var d := ShuffledFrom(x, y, r, v, index - 1);
  }

  /** The upper of the two middle entries of the sorted order. */
  function UpperMiddle(x: seq<real>): real
    requires |x| > 0
  {
    SortKeepsLength(x);
    Sort(x, AtMostOrder)[|x| / 2]
  }

  /** The median of any array is exact when no value below the upper middle one is repeated. */
  lemma LowDistinctMedianIsExact(x: seq<real>)
    requires |x| > 0
    requires forall i, j :: 0 <= i < j < |x| && x[i] == x[j] ==> x[i] >= UpperMiddle(x)
    ensures Median(x) == ExactMedian(x)
  {
    var k, f := |x| / 2, Cleared(|x|);
    if |x| % 2 == 0 && FirstSearchTies(x) {
      var first := OrderedEntry(x, f, k);
      EntryIsOrderStatistic(x, f, k);
      FirstIsSettled(x, k);
      RangeIsApart(x, f, k);
      forall e | multiset(x)[e] > 1 ensures e >= first.entry {
        if e < first.entry {
          CountsOnce(x, e);
        }
      }
      TieIsAtTheEntry(x, f, Left(f, k), Right(f, k), k);
      hide Search, Sort, Apart;
      assert AtMost(first.x, 0, SecondStart(first.flags, k), first.x[k - 1]);
      EvenMedianExactlyWhen(x);
    } else {
      MedianIsExact(x);
    }
  }

  lemma FirstIsSettled(x: seq<real>, k: nat)
    requires k < |x|
    ensures var first := OrderedEntry(x, Cleared(|x|), k);
            first.flags[k] && first.entry == first.x[k] && Settled(first.x, k) && multiset(first.x) == multiset(x)
  {
    RangeIsApart(x, Cleared(|x|), k);
    SearchSettles(x, Cleared(|x|), Left(Cleared(|x|), k), Right(Cleared(|x|), k), k);
  }

  // ---------- an array on which the median is wrong ----------

  const TIED: seq<real> := [8.0, 1.0, 2.0, 5.0, 5.0, 6.0, 7.0, 9.0, 10.0, 11.0]

  lemma TiedRoundOne()
    ensures Round(TIED, 0, 9) == Split([5.0, 1.0, 2.0, 5.0, 8.0, 6.0, 7.0, 9.0, 10.0, 11.0], 3, 3)
  {
    var y := Exchange(TIED, 0, 4);
    assert y == [5.0, 1.0, 2.0, 5.0, 8.0, 6.0, 7.0, 9.0, 10.0, 11.0];
    assert ScanUp(y, 1, 9, 5.0) == 3 by {
      assert ScanUp(y, 3, 9, 5.0) == 3;
      assert ScanUp(y, 2, 9, 5.0) == 3;
    }
    assert ScanDown(y, 0, 9, 5.0) == 3 by {
      assert ScanDown(y, 0, 3, 5.0) == 3;
      assert ScanDown(y, 0, 4, 5.0) == 3;
      assert ScanDown(y, 0, 5, 5.0) == 3;
      assert ScanDown(y, 0, 6, 5.0) == 3;
      assert ScanDown(y, 0, 7, 5.0) == 3;
      assert ScanDown(y, 0, 8, 5.0) == 3;
    }
    assert Partition(y, 0, 1, 9, 9) == Split(y, 3, 3);
    assert Exchange(y, 0, 3) == y;
  }

  lemma TiedPartition()
    ensures var a := [5.0, 1.0, 2.0, 7.0, 8.0, 6.0, 5.0, 9.0, 10.0, 11.0];
            var b := [5.0, 1.0, 2.0, 7.0, 5.0, 6.0, 8.0, 9.0, 10.0, 11.0];
            Partition(a, 3, 4, 9, 9) == Partition(b, 3, 5, 5, 9)
  {
    var a := [5.0, 1.0, 2.0, 7.0, 8.0, 6.0, 5.0, 9.0, 10.0, 11.0];
    var b := [5.0, 1.0, 2.0, 7.0, 5.0, 6.0, 8.0, 9.0, 10.0, 11.0];
    assert Exchange(a, 4, 6) == b;
    assert ScanUp(a, 4, 9, 7.0) == 4;
    assert ScanDown(a, 3, 9, 7.0) == 6 by {
      assert ScanDown(a, 3, 6, 7.0) == 6;
      assert ScanDown(a, 3, 7, 7.0) == 6;
      assert ScanDown(a, 3, 8, 7.0) == 6;
    }
    hide ScanUp, ScanDown, Exchange;
    PartitionStep(a, 3, 4, 9, 9);
  }

  lemma TiedPartitionEnd()
    ensures var b := [5.0, 1.0, 2.0, 7.0, 5.0, 6.0, 8.0, 9.0, 10.0, 11.0];
            Partition(b, 3, 5, 5, 9) == Split(b, 6, 5)
  {
    var b := [5.0, 1.0, 2.0, 7.0, 5.0, 6.0, 8.0, 9.0, 10.0, 11.0];
    assert ScanUp(b, 5, 9, 7.0) == 6 by {
      assert ScanUp(b, 6, 9, 7.0) == 6;
    }
    assert ScanDown(b, 3, 5, 7.0) == 5;
    hide ScanUp, ScanDown;
    PartitionStep(b, 3, 5, 5, 9);
  }

  lemma TiedRoundTwo()
    ensures var y := [5.0, 1.0, 2.0, 5.0, 8.0, 6.0, 7.0, 9.0, 10.0, 11.0];
            Round(y, 3, 9) == Split([5.0, 1.0, 2.0, 6.0, 5.0, 7.0, 8.0, 9.0, 10.0, 11.0], 6, 5)
  {
    var y := [5.0, 1.0, 2.0, 5.0, 8.0, 6.0, 7.0, 9.0, 10.0, 11.0];
    var a := [5.0, 1.0, 2.0, 7.0, 8.0, 6.0, 5.0, 9.0, 10.0, 11.0];
    var b := [5.0, 1.0, 2.0, 7.0, 5.0, 6.0, 8.0, 9.0, 10.0, 11.0];
    var c := [5.0, 1.0, 2.0, 6.0, 5.0, 7.0, 8.0, 9.0, 10.0, 11.0];
    assert Exchange(y, 3, 6) == a && Exchange(b, 3, 5) == c;
    hide Partition, Exchange, ScanUp, ScanDown;
    TiedPartition();
    TiedPartitionEnd();
  }

  lemma TiedFirstSearch()
    ensures OrderedEntry(TIED, Cleared(10), 5) ==
              Found(7.0, [5.0, 1.0, 2.0, 6.0, 5.0, 7.0, 8.0, 9.0, 10.0, 11.0],
                    Cleared(10)[3 := true][5 := true], true)
  {
    TiedRoundOne();
    TiedRoundTwo();
    hide Round;
    var f := Cleared(10);
    assert Left(f, 5) == 0 by {
      assert Left(f, 1) == 0;
      assert Left(f, 2) == 0;
      assert Left(f, 3) == 0;
      assert Left(f, 4) == 0;
    }
    assert Right(f, 5) == 9 by {
      assert Right(f, 8) == 9;
      assert Right(f, 7) == 9;
      assert Right(f, 6) == 9;
    }
    var y := [5.0, 1.0, 2.0, 5.0, 8.0, 6.0, 7.0, 9.0, 10.0, 11.0];
    var z := [5.0, 1.0, 2.0, 6.0, 5.0, 7.0, 8.0, 9.0, 10.0, 11.0];
    assert Search(y, f[3 := true], 3, 9, 5) == Found(7.0, z, f[3 := true][5 := true], false);
  }

  lemma TiedSecondSearch()
    ensures var z := [5.0, 1.0, 2.0, 6.0, 5.0, 7.0, 8.0, 9.0, 10.0, 11.0];
            OrderedEntry(z, Cleared(10)[3 := true][5 := true], 4).entry == 5.0
  {
    hide Round;
    var f := Cleared(10)[3 := true][5 := true];
    assert Left(f, 3) == 4 && Right(f, 5) == 4;
    assert Left(f, 4) == 4 && Right(f, 4) == 4;
  }

  /** What the first search leaves sorts to 6 and 7 in the two middle places. */
  lemma TiedSorted(z: seq<real>, x: seq<real>)
    requires |z| == 10 && multiset(z) == multiset(x)
    requires z[0] == 5.0 && z[1] == 1.0 && z[2] == 2.0 && z[3] == 6.0 && z[4] == 5.0
    requires z[5] == 7.0 && z[6] == 8.0 && z[7] == 9.0 && z[8] == 10.0 && z[9] == 11.0
    ensures |Sort(x, AtMostOrder)| == 10
    ensures Sort(x, AtMostOrder)[5] == 7.0 && Sort(x, AtMostOrder)[4] == 6.0
  {
    hide Sort, Shuffle;
    SettledIsSorted(z, x, 5);
    var w := Exchange(z, 3, 4);
    ExchangeShuffles(z, 3, 4, 3, 4);
    ShuffledWhole(z, w, 3, 4);
    SettledIsSorted(w, x, 4);
  }

  lemma TiedSortedMiddle()
    ensures |Sort(TIED, AtMostOrder)| == 10
    ensures Sort(TIED, AtMostOrder)[5] == 7.0 && Sort(TIED, AtMostOrder)[4] == 6.0
  {
    hide Sort, OrderedEntry;
    TiedFirstSearch();
    var z := OrderedEntry(TIED, Cleared(10), 5).x;
    assert z[0] == 5.0 && z[1] == 1.0 && z[2] == 2.0 && z[3] == 6.0 && z[4] == 5.0;
    assert z[5] == 7.0 && z[6] == 8.0 && z[7] == 9.0 && z[8] == 10.0 && z[9] == 11.0;
    EntryPermutes(TIED, Cleared(10), 5);
    TiedSorted(z, TIED);
  }

  /** With a repeated entry the second search of the median can start from a wrong flag: here it
      gives 5 where the sorted array has 6. */
  lemma TiedMedianIsWrong()
    ensures FirstSearchTies(TIED) && Median(TIED) == 6.0 && ExactMedian(TIED) == 6.5
  {
    hide OrderedEntry, Sort, Cleared, Median;
    MedianMeans(TIED);
    TiedFirstSearch();
    TiedSecondSearch();
    TiedSortedMiddle();
    assert |TIED| == 10;
  }

  // ---------- the algorithm in place ----------

  method Swap(x: array<real>, i: nat, j: nat)
    requires i < x.Length && j < x.Length
    modifies x
    ensures x[..] == Exchange(old(x[..]), i, j)
    ensures forall c :: 0 <= c < x.Length && c != i && c != j ==> x[c] == old(x[c])
  {
    x[i], x[j] := x[j], x[i];
  }

  /** Both scans of a partition step; the pivot at u stops the second one inside the array. */
  method ScanBoth(x: array<real>, u: nat, l: nat, r: nat, v: nat, piv: real) returns (l': nat, r': nat)
    requires u < l <= v < x.Length && u <= r <= v && x[u] == piv
    ensures l' == ScanUp(x[..], l, v, piv) && r' == ScanDown(x[..], u, r, piv)
  {
    l', r' := l, r;
    while x[l'] < piv && l' < v
      decreases v - l'
      invariant l <= l' <= v && ScanUp(x[..], l', v, piv) == ScanUp(x[..], l, v, piv)
    {
      l' := l' + 1;
    }
    while x[r'] > piv
      decreases r'
      invariant u <= r' <= r && ScanDown(x[..], u, r', piv) == ScanDown(x[..], u, r, piv)
    {
      r' := r' - 1;
    }
  }

  /** The partition loop. */
  method PartitionInPlace(x: array<real>, u: nat, v: nat) returns (l: nat, r: nat)
    requires u + 2 <= v < x.Length
    modifies x
    ensures Split(x[..], l, r) == Partition(old(x[..]), u, u + 1, v, v)
  {
    hide ScanUp, ScanDown, Exchange, Partition;
    ghost var goal := Partition(x[..], u, u + 1, v, v);
    var piv := x[u];
    l, r := u + 1, v;
    while true
      invariant u < l <= v && u <= r <= v && x[u] == piv
      invariant Partition(x[..], u, l, r, v) == goal
      decreases r
    {
      PartitionStep(x[..], u, l, r, v);
      l, r := ScanBoth(x, u, l, r, v, piv);
      if r <= l {
        break;
      }
      Swap(x, l, r);
      l, r := l + 1, r - 1;
    }
  }

  /** One round: choose the middle entry as the pivot, partition, and put the pivot in place. */
  method RoundInPlace(x: array<real>, u: nat, v: nat) returns (l: nat, r: nat)
    requires u + 2 <= v < x.Length
    modifies x
    ensures Split(x[..], l, r) == Round(old(x[..]), u, v)
  {
    Swap(x, u, (u + v) / 2);
    PartitionBounds(x[..], u, u + 1, v, v);
    l, r := PartitionInPlace(x, u, v);
    Swap(x, u, r);
  }

  /** The unsettled stretch around index. */
  method FindRange(flags: array<bool>, index: nat) returns (u: nat, v: nat)
    requires index < flags.Length && !flags[index]
    ensures u == Left(flags[..], index) && v == Right(flags[..], index)
  {
    u, v := index, index;
    while u > 0 && !flags[u]
      invariant u <= index && Left(flags[..], u) == Left(flags[..], index)
    {
      u := u - 1;
    }
    if flags[u] {
      u := u + 1;
    }
    while v < flags.Length - 1 && !flags[v]
      invariant index <= v < flags.Length && Right(flags[..], v) == Right(flags[..], index)
    {
      v := v + 1;
    }
    if flags[v] {
      v := v - 1;
    }
  }

  /** find_ordered_entry_with_flags */
  method FindOrderedEntry(x: array<real>, flags: array<bool>, index: nat) returns (entry: real)
    requires flags.Length == x.Length && index < x.Length
    modifies x, flags
    ensures var found := OrderedEntry(old(x[..]), old(flags[..]), index);
            entry == found.entry && x[..] == found.x && flags[..] == found.flags
  {
    hide Round;
    if flags[index] {
      return x[index];
    }
    ghost var goal := OrderedEntry(x[..], flags[..], index);
    var u: nat, v: nat := FindRange(flags, index);
    ghost var tied := false;
    while true
      invariant 0 <= u <= index <= v < x.Length
      invariant var rest := Search(x[..], flags[..], u, v, index);
                goal == rest.(tied := rest.tied || tied)
      decreases v - u
    {
      hide Exchange;
      if v - u < 2 {
        if x[v] < x[u] {
          Swap(x, u, v);
        }
        flags[v], flags[u] := true, true;
        return x[index];
      }
      var l, r := RoundInPlace(x, u, v);
      flags[r] := true;
      if index == r {
        return x[r];
      } else if index < r {
        v := r - 1;
      } else {
        u, tied := l, tied || l == r;
      }
    }
  }

  lemma MedianPermutes(x: seq<real>)
    requires |x| > 0
    ensures var k, first := |x| / 2, OrderedEntry(x, Cleared(|x|), |x| / 2);
            && multiset(first.x) == multiset(x)
            && (k > 0 ==> multiset(OrderedEntry(first.x, first.flags, k - 1).x) == multiset(x))
  {
    hide OrderedEntry, Cleared;
    var k, first := |x| / 2, OrderedEntry(x, Cleared(|x|), |x| / 2);
    EntryPermutes(x, Cleared(|x|), k);
    if k > 0 {
      EntryPermutes(first.x, first.flags, k - 1);
    }
  }

  /** The two searches of find_median. */
  method MedianFrom(x: array<real>, flags: array<bool>) returns (median: real)
    requires x.Length > 0 && flags[..] == Cleared(x.Length)
    modifies x, flags
    ensures median == Median(old(x[..]))
    ensures multiset(x[..]) == multiset(old(x[..]))
  {
    hide OrderedEntry, Cleared, Median;
    MedianMeans(x[..]);
    MedianPermutes(x[..]);
    ghost var first := OrderedEntry(x[..], flags[..], x.Length / 2);
    median := FindOrderedEntry(x, flags, x.Length / 2);
    if x.Length % 2 == 0 {
      var lower := FindOrderedEntry(x, flags, x.Length / 2 - 1);
      assert x[..] == OrderedEntry(first.x, first.flags, x.Length / 2 - 1).x;
      median := 0.5 * (median + lower);
    }
  }

  /** find_median */
  method FindMedian(x: array<real>) returns (median: real)
    requires x.Length > 0
    modifies x
    ensures median == Median(old(x[..]))
    ensures multiset(x[..]) == multiset(old(x[..]))
  {
    var flags := new bool[x.Length](_ => false);
    assert flags[..] == Cleared(x.Length);
    median := MedianFrom(x, flags);
  }
}
