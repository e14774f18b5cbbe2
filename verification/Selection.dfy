/** The source table of sources.c: how the synchronisation source is elected and re-elected.
    What the statistics module and the clock would answer is the parameter `stats`; what the
    reference module would be told is the returned Update. */
module Selection {
  import opened Numbers
  import opened Ordering
  import opened Sweep

  datatype Status = OK | UNREACHABLE | BAD_STATS | FALSETICKER | SELECTABLE | SYNC
  datatype SelectOption = Normal | NoSelect | Prefer
  datatype Leap = LeapNormal | InsertSecond | DeleteSecond | LeapUnsynchronised

  /** SST_GetSelectionData for one source at the time of the call. */
  datatype Stats = Stats(ok: bool, stratum: int, offset: real, rootDelay: real, rootDispersion: real)

  /** Calls into the reference module. */
  datatype Update =
    | NoUpdate
    | SetUnsynchronised
    | SetReference(index: nat, stratum: int, leap: Leap)

  const INVALID_SOURCE: int := -1
  const SCORE_LIMIT: real := 10.0

  // ---------- one source ----------

  /** How distances are weighted in one round. */
  datatype Scale = Scale(minStratum: int, stratumWeight: real, reselectDistance: real)

  function RootDistance(st: Stats): real {
    st.rootDispersion + 0.5 * Abs(st.rootDelay)
  }

  /** One record of the table; stratum, distance, lo and hi are what the last round that found the
      source eligible read from its statistics. */
  datatype Source = Source(
    refId: int, ntp: bool, option: SelectOption,
    index: int, selectable: bool, reachability: nat, leap: Leap, status: Status, score: real,
    stratum: int, distance: real, lo: real, hi: real)
  {
    predicate Eligible() {
      selectable && reachability != 0 && option != NoSelect
    }

    /** Step 1 of a round for this source. */
    function Read(st: Stats): Source {
      if !Eligible() then this.(status := UNREACHABLE)
      else
        var d := RootDistance(st);
        this.(stratum := st.stratum, distance := d, lo := st.offset - d, hi := st.offset + d,
              status := if st.ok then OK else BAD_STATS)
    }

    /** The source takes part in the sweep, and its interval contains the best interval or lies
        within it. */
    predicate Admissible(bestLo: real, bestHi: real) {
      status == OK && ((lo <= bestLo && hi >= bestHi) || (lo >= bestLo && hi <= bestHi))
    }

    function Mark(bestLo: real, bestHi: real): Source {
      if status != OK then this
      else this.(status := if Admissible(bestLo, bestHi) then SELECTABLE else FALSETICKER)
    }

    /** Distance with the penalty for its stratum, as used for the selected source. */
    function Penalised(sc: Scale): real {
      distance + (stratum - sc.minStratum) as real * sc.stratumWeight
    }

    /** Distance as used for a contender. */
    function Weighted(sc: Scale): real {
      Penalised(sc) + if ntp then sc.reselectDistance else 0.0
    }
  }

  lemma MarkAdmissible(s: Source, lo: real, hi: real)
    requires s.Admissible(lo, hi)
    ensures s.Mark(lo, hi) == s.(status := SELECTABLE)
  {
  }

  // ---------- one selection round, on the table as step 1 leaves it ----------

  function ReadAll(ss: seq<Source>, stats: seq<Stats>): seq<Source>
    requires |ss| == |stats|
  {
    seq(|ss|, i requires 0 <= i < |ss| => ss[i].Read(stats[i]))
  }

  function Marked(cs: seq<Source>, lo: real, hi: real): seq<Source> {
    seq(|cs|, i requires 0 <= i < |cs| => cs[i].Mark(lo, hi))
  }

  /** Step 1 leaves every source with one of three statuses. */
  predicate Fresh(cs: seq<Source>) {
    forall i :: 0 <= i < |cs| ==> cs[i].status in {OK, UNREACHABLE, BAD_STATS}
  }

  function Rescored(cs: seq<Source>, scores: seq<real>): seq<Source>
    requires |cs| == |scores|
  {
    seq(|cs|, i requires 0 <= i < |cs| => cs[i].(score := scores[i]))
  }

  /** The intervals of the sources that take part in the sweep. */
  function Intervals(cs: seq<Source>): seq<Interval> {
    if cs == [] then []
    else
      var n := |cs| - 1;
      Intervals(cs[..n]) + if cs[n].status == OK then [Interval(n, cs[n].lo, cs[n].hi)] else []
  }

  /** Indices of the admissible sources, in table order. */
  function AdmissibleList(cs: seq<Source>, lo: real, hi: real): seq<nat> {
    if cs == [] then []
    else
      var n := |cs| - 1;
      AdmissibleList(cs[..n], lo, hi) + if cs[n].Admissible(lo, hi) then [n] else []
  }

  function CountStatus(cs: seq<Source>, st: Status): nat {
    if cs == [] then 0
    else
      var n := |cs| - 1;
      CountStatus(cs[..n], st) + if cs[n].status == st then 1 else 0
  }

  function MaxReach(cs: seq<Source>, st: Status): nat {
    if cs == [] then 0
    else
      var n := |cs| - 1;
      var m := MaxReach(cs[..n], st);
      MaxIf(cs[n].status == st, cs[n].reachability, m)
  }

  function MaxIf(counts: bool, x: nat, m: nat): nat {
    if counts && m < x then x else m
  }

  /** A first selection waits while a source without valid statistics is exactly one sample
      behind the best reachable one. */
  predicate Waits(cs: seq<Source>, selected: int) {
    && selected == INVALID_SOURCE
    && CountStatus(cs, BAD_STATS) > 0
    && CountStatus(cs, OK) > 0
    && MaxReach(cs, OK) / 2 == MaxReach(cs, BAD_STATS)
  }

  /** One more source in the round. */
  lemma RoundStep(cs: seq<Source>, i: nat)
    requires i < |cs|
    ensures Intervals(cs[..i + 1]) ==
              Intervals(cs[..i]) + if cs[i].status == OK then [Interval(i, cs[i].lo, cs[i].hi)] else []
    ensures CountStatus(cs[..i + 1], BAD_STATS) ==
              CountStatus(cs[..i], BAD_STATS) + if cs[i].status == BAD_STATS then 1 else 0
    ensures MaxReach(cs[..i + 1], OK) == MaxIf(cs[i].status == OK, cs[i].reachability, MaxReach(cs[..i], OK))
    ensures MaxReach(cs[..i + 1], BAD_STATS) ==
              MaxIf(cs[i].status == BAD_STATS, cs[i].reachability, MaxReach(cs[..i], BAD_STATS))
  {
    assert cs[..i + 1][..i] == cs[..i];
  }

  lemma {:induction false} IntervalsAreVotes(cs: seq<Source>)
    ensures forall j :: 0 <= j < |Intervals(cs)| ==>
      var iv := Intervals(cs)[j];
      iv.source < |cs| && cs[iv.source].status == OK && iv.lo == cs[iv.source].lo && iv.hi == cs[iv.source].hi
    ensures |Intervals(cs)| == CountStatus(cs, OK)
  {
    if cs != [] {
      IntervalsAreVotes(cs[..|cs| - 1]);
    }
  }

  lemma {:induction false} AdmissibleListIsExact(cs: seq<Source>, lo: real, hi: real) returns (l: seq<nat>)
    ensures l == AdmissibleList(cs, lo, hi) && Indices(l, |cs|)
    ensures forall j :: 0 <= j < |l| ==> cs[l[j]].Admissible(lo, hi)
    ensures forall i :: 0 <= i < |cs| && cs[i].Admissible(lo, hi) ==> i in l
    ensures forall j, k :: 0 <= j < k < |l| ==> l[j] < l[k]
  {
    hide Source.Admissible;
    l := [];
    if cs != [] {
      var n := |cs| - 1;
      var l' := AdmissibleListIsExact(cs[..n], lo, hi);
      l := if cs[n].Admissible(lo, hi) then l' + [n] else l';
      forall j | 0 <= j < |l| ensures l[j] < |cs| && cs[l[j]].Admissible(lo, hi) {
        if j < |l'| {
          assert l[j] == l'[j] && cs[..n][l'[j]] == cs[l'[j]];
        }
      }
      forall i | 0 <= i < |cs| && cs[i].Admissible(lo, hi) ensures i in l {
        if i < n {
          assert cs[..n][i] == cs[i] && i in l';
        }
      }
    }
  }

  /** With a majority the list of admissible sources is never empty, so the branch of
      sources.c that reports "no selectable sources" is never taken. */
  lemma MajorityIsSelectable(cs: seq<Source>, depth: nat, lo: real, hi: real)
    requires Deepest(Intervals(cs), depth, lo, hi) && depth > |Intervals(cs)| / 2
    ensures AdmissibleList(cs, lo, hi) != []
  {
    var ivs := Intervals(cs);
    var j := MajorityAgrees(ivs, depth, lo, hi);
    IntervalsAreVotes(cs);
    var sel := AdmissibleListIsExact(cs, lo, hi);
    assert cs[ivs[j].source].Admissible(lo, hi);
  }

  // ---------- leap vote, prefer option, stratum ----------

  predicate Indices(sel: seq<nat>, n: nat) {
    forall k :: 0 <= k < |sel| ==> sel[k] < n
  }

  function CountLeap(cs: seq<Source>, sel: seq<nat>, leap: Leap): nat
    requires Indices(sel, |cs|)
  {
    if sel == [] then 0
    else
      var n := |sel| - 1;
      CountLeap(cs, sel[..n], leap) + if cs[sel[n]].leap == leap then 1 else 0
  }

  function LeapOf(cs: seq<Source>, sel: seq<nat>): Leap
    requires Indices(sel, |cs|)
  {
    if CountLeap(cs, sel, InsertSecond) > |sel| / 2 then InsertSecond
    else if CountLeap(cs, sel, DeleteSecond) > |sel| / 2 then DeleteSecond
    else LeapNormal
  }

  lemma {:induction false} LeapCountsExclude(cs: seq<Source>, sel: seq<nat>)
    requires Indices(sel, |cs|)
    ensures CountLeap(cs, sel, InsertSecond) + CountLeap(cs, sel, DeleteSecond) <= |sel|
  {
    if sel != [] {
      LeapCountsExclude(cs, sel[..|sel| - 1]);
    }
  }

  /** A leap second is accepted exactly when more than half of the selectable sources announce it. */
  lemma LeapNeedsMajority(cs: seq<Source>, sel: seq<nat>)
    requires Indices(sel, |cs|)
    ensures LeapOf(cs, sel) == InsertSecond <==> 2 * CountLeap(cs, sel, InsertSecond) > |sel|
    ensures LeapOf(cs, sel) == DeleteSecond <==> 2 * CountLeap(cs, sel, DeleteSecond) > |sel|
  {
    LeapCountsExclude(cs, sel);
  }

  /** The stratum every distance is measured from: the least among the preferred selectable
      sources if there are any, and among all selectable sources otherwise. */
  ghost predicate IsReferenceStratum(cs: seq<Source>, lo: real, hi: real, m: int) {
    var prefer := exists i :: 0 <= i < |cs| && cs[i].Admissible(lo, hi) && cs[i].option == Prefer;
    && (exists i :: 0 <= i < |cs| && cs[i].Admissible(lo, hi) && (prefer ==> cs[i].option == Prefer) && cs[i].stratum == m)
    && (forall i :: 0 <= i < |cs| && cs[i].Admissible(lo, hi) && (prefer ==> cs[i].option == Prefer) ==> m <= cs[i].stratum)
  }

  function Preferred(cs: seq<Source>, sel: seq<nat>): seq<nat>
    requires Indices(sel, |cs|)
  {
    if sel == [] then []
    else
      var n := |sel| - 1;
      Preferred(cs, sel[..n]) + if cs[sel[n]].option == Prefer then [sel[n]] else []
  }

  lemma {:induction false} PreferredIsExact(cs: seq<Source>, sel: seq<nat>)
    requires Indices(sel, |cs|)
    ensures var p := Preferred(cs, sel);
            && Indices(p, |cs|)
            && (forall k :: 0 <= k < |p| ==> p[k] in sel && cs[p[k]].option == Prefer)
            && (forall k :: 0 <= k < |sel| && cs[sel[k]].option == Prefer ==> sel[k] in p)
  {
    if sel != [] {
      var n := |sel| - 1;
      PreferredIsExact(cs, sel[..n]);
      var p, p' := Preferred(cs, sel[..n]), Preferred(cs, sel);
      forall k | 0 <= k < |p'| ensures p'[k] in sel && p'[k] < |cs| && cs[p'[k]].option == Prefer {
        if k < |p| {
          assert p'[k] == p[k] && p[k] in sel[..n];
        }
      }
      forall k | 0 <= k < |sel| && cs[sel[k]].option == Prefer ensures sel[k] in p' {
        assert k < n ==> sel[..n][k] in p;
      }
    }
  }

  /** The list whose strata are compared: the preferred sources, or all if none is preferred. */
  function Finalists(cs: seq<Source>, sel: seq<nat>): seq<nat>
    requires Indices(sel, |cs|)
  {
    if Preferred(cs, sel) != [] then Preferred(cs, sel) else sel
  }

  function LeastStratum(cs: seq<Source>, l: seq<nat>): int
    requires l != [] && Indices(l, |cs|)
  {
    var n := |l| - 1;
    if n == 0 then cs[l[0]].stratum
    else
      var m := LeastStratum(cs, l[..n]);
      if cs[l[n]].stratum < m then cs[l[n]].stratum else m
  }

  lemma {:induction false} LeastStratumIsLeast(cs: seq<Source>, l: seq<nat>) returns (w: nat)
    requires l != [] && Indices(l, |cs|)
    ensures w < |l| && cs[l[w]].stratum == LeastStratum(cs, l)
    ensures forall k :: 0 <= k < |l| ==> LeastStratum(cs, l) <= cs[l[k]].stratum
  {
    var n := |l| - 1;
    w := 0;
    if n > 0 {
      w := LeastStratumIsLeast(cs, l[..n]);
      assert forall k :: 0 <= k < n ==> l[..n][k] == l[k];
      if cs[l[n]].stratum < LeastStratum(cs, l[..n]) {
        w := n;
      }
    }
  }

  /** The list is well formed, so its least stratum is defined. */
  lemma FinalistsAreIndices(cs: seq<Source>, lo: real, hi: real)
    ensures Indices(AdmissibleList(cs, lo, hi), |cs|)
    ensures Indices(Finalists(cs, AdmissibleList(cs, lo, hi)), |cs|)
    ensures AdmissibleList(cs, lo, hi) != [] ==> Finalists(cs, AdmissibleList(cs, lo, hi)) != []
  {
    var sel := AdmissibleListIsExact(cs, lo, hi);
    PreferredIsExact(cs, sel);
  }

  function ReferenceStratum(cs: seq<Source>, lo: real, hi: real): int
    requires AdmissibleList(cs, lo, hi) != []
  {
    FinalistsAreIndices(cs, lo, hi);
    LeastStratum(cs, Finalists(cs, AdmissibleList(cs, lo, hi)))
  }

  lemma ReferenceStratumIsLeast(cs: seq<Source>, lo: real, hi: real)
    requires AdmissibleList(cs, lo, hi) != []
    ensures IsReferenceStratum(cs, lo, hi, ReferenceStratum(cs, lo, hi))
  {
    var sel := AdmissibleListIsExact(cs, lo, hi);
    FinalistsAreIndices(cs, lo, hi);
    var l := Finalists(cs, sel);
    PreferredIsExact(cs, sel);
    var w := LeastStratumIsLeast(cs, l);
    var m := ReferenceStratum(cs, lo, hi);
    assert l[w] in sel;
    var prefer := exists i :: 0 <= i < |cs| && cs[i].Admissible(lo, hi) && cs[i].option == Prefer;
    if prefer {
      var i :| 0 <= i < |cs| && cs[i].Admissible(lo, hi) && cs[i].option == Prefer;
      assert i in sel;
      assert i in Preferred(cs, sel);
    }
    forall i | 0 <= i < |cs| && cs[i].Admissible(lo, hi) && (prefer ==> cs[i].option == Prefer)
      ensures m <= cs[i].stratum
    {
      assert i in sel;
      assert i in l;
    }
  }

  // ---------- scores ----------

  function Scaled(score: real, selDistance: real, distance: real): real
    requires distance != 0.0
  {
    score * (selDistance / distance)
  }

  /** One source's score: relative to the selected source if there is one, and touched only when
      one of the two has a new sample. */
  function NextScore(score: real, selecting: bool, touched: bool, selDistance: real, distance: real): real
    requires selecting || touched ==> distance != 0.0
  {
    if selecting then 1.0 / distance
    else if !touched then score
    else
      var updated := Scaled(score, selDistance, distance);
      if updated < 1.0 then 1.0 else updated
  }

  /** The score of source i is divided by its distance: always on a first selection, otherwise
      when one of the two sources has the new sample. */
  predicate Divides(cs: seq<Source>, i: nat, selected: int, match_: int)
    requires i < |cs| && INVALID_SOURCE <= selected < |cs|
  {
    selected == INVALID_SOURCE || cs[i].refId == match_ || cs[selected].refId == match_
  }

  /** No division by a zero distance. */
  predicate Scorable(cs: seq<Source>, selected: int, match_: int, sc: Scale, lo: real, hi: real)
    requires INVALID_SOURCE <= selected < |cs|
  {
    forall i :: 0 <= i < |cs| && cs[i].Admissible(lo, hi) && Divides(cs, i, selected, match_) ==>
      cs[i].Weighted(sc) != 0.0
  }

  /** The score of source i after this round's update. */
  function NewScore(cs: seq<Source>, i: nat, selected: int, match_: int, sc: Scale, lo: real, hi: real): real
    requires i < |cs| && INVALID_SOURCE <= selected < |cs| && Scorable(cs, selected, match_, sc, lo, hi)
  {
    if !cs[i].Admissible(lo, hi) then 1.0
    else if selected == INVALID_SOURCE then NextScore(cs[i].score, true, false, 0.0, cs[i].Weighted(sc))
    else
      NextScore(cs[i].score, false, cs[i].refId == match_ || cs[selected].refId == match_,
                cs[selected].Penalised(sc), cs[i].Weighted(sc))
  }

  function NewScores(cs: seq<Source>, selected: int, match_: int, sc: Scale, lo: real, hi: real): seq<real>
    requires INVALID_SOURCE <= selected < |cs| && Scorable(cs, selected, match_, sc, lo, hi)
  {
    seq(|cs|, i requires 0 <= i < |cs| => NewScore(cs, i, selected, match_, sc, lo, hi))
  }

  /** m is the first of the admissible sources with the largest score. */
  ghost predicate Leads(cs: seq<Source>, m: nat, scores: seq<real>, lo: real, hi: real) {
    && m < |cs| == |scores|
    && cs[m].Admissible(lo, hi)
    && (forall k :: 0 <= k < |cs| && cs[k].Admissible(lo, hi) ==> scores[k] <= scores[m])
    && (forall k :: 0 <= k < m && cs[k].Admissible(lo, hi) ==> scores[k] < scores[m])
  }

  /** The running maximum of the score loop over the first i sources. */
  ghost function Leader(cs: seq<Source>, scores: seq<real>, i: nat, lo: real, hi: real): (int, real)
    requires i <= |cs| == |scores|
  {
    if i == 0 then (INVALID_SOURCE, 0.0)
    else
      var (m, top) := Leader(cs, scores, i - 1, lo, hi);
      if cs[i - 1].Admissible(lo, hi) && top < scores[i - 1] then (i - 1, scores[i - 1]) else (m, top)
  }

  lemma {:induction false} LeaderLeads(cs: seq<Source>, scores: seq<real>, i: nat, lo: real, hi: real)
    requires i <= |cs| == |scores|
    ensures var (m, top) := Leader(cs, scores, i, lo, hi);
            && -1 <= m < i && top >= 0.0
            && (m == -1 ==> top == 0.0)
            && (m >= 0 ==> cs[m].Admissible(lo, hi) && top == scores[m] > 0.0)
            && (forall k :: 0 <= k < i && cs[k].Admissible(lo, hi) ==> scores[k] <= top)
            && (forall k :: 0 <= k < m && cs[k].Admissible(lo, hi) ==> scores[k] < top)
  {
    if i > 0 {
      LeaderLeads(cs, scores, i - 1, lo, hi);
    }
  }

  /** A first selection elects the source at the least positive weighted distance. */
  lemma FirstElectionIsNearest(cs: seq<Source>, m: nat, match_: int, sc: Scale, lo: real, hi: real)
    requires Scorable(cs, INVALID_SOURCE, match_, sc, lo, hi)
    requires Leads(cs, m, NewScores(cs, INVALID_SOURCE, match_, sc, lo, hi), lo, hi)
    requires NewScores(cs, INVALID_SOURCE, match_, sc, lo, hi)[m] > 0.0
    ensures cs[m].Weighted(sc) > 0.0
    ensures forall i :: 0 <= i < |cs| && cs[i].Admissible(lo, hi) && cs[i].Weighted(sc) > 0.0 ==>
              cs[m].Weighted(sc) <= cs[i].Weighted(sc)
  {
    var scores := NewScores(cs, INVALID_SOURCE, match_, sc, lo, hi);
    var d := cs[m].Weighted(sc);
    assert scores[m] == 1.0 / d;
    forall i | 0 <= i < |cs| && cs[i].Admissible(lo, hi) && cs[i].Weighted(sc) > 0.0
      ensures d <= cs[i].Weighted(sc)
    {
      assert scores[i] == 1.0 / cs[i].Weighted(sc) <= 1.0 / d;
    }
  }

  // ---------- what a whole round decides ----------

  datatype Round =
    | Waiting
    | NoVotes
    | NoMajority(depth: nat, lo: real, hi: real)
    | Elected(depth: nat, lo: real, hi: real, scale: Scale, leap: Leap, leader: nat, kept: bool, winner: nat)
  {
    function Selected(): int {
      if Elected? then winner else INVALID_SOURCE
    }
  }

  /** The selected source stays unless it is no longer selectable or another one leads it by
      more than the limit. */
  predicate Kept(cs: seq<Source>, selected: int, leader: nat, top: real, lo: real, hi: real)
    requires INVALID_SOURCE <= selected < |cs|
  {
    selected != INVALID_SOURCE && cs[selected].Admissible(lo, hi) && (leader == selected || top <= SCORE_LIMIT)
  }

  /** The scale of an election: strata count from the reference stratum. */
  function ScaleOf(cs: seq<Source>, lo: real, hi: real, w: real, reselect: real): Scale
    requires AdmissibleList(cs, lo, hi) != []
  {
    Scale(ReferenceStratum(cs, lo, hi), w, reselect)
  }

  /** The election held among the sources admissible for [lo, hi]. */
  ghost function ElectionOf(cs: seq<Source>, selected: int, match_: int, sc: Scale, depth: nat, lo: real, hi: real): Round
    requires INVALID_SOURCE <= selected < |cs| && Scorable(cs, selected, match_, sc, lo, hi)
    requires Leader(cs, NewScores(cs, selected, match_, sc, lo, hi), |cs|, lo, hi).0 >= 0
  {
    FinalistsAreIndices(cs, lo, hi);
    var (m, top) := Leader(cs, NewScores(cs, selected, match_, sc, lo, hi), |cs|, lo, hi);
    var kept := Kept(cs, selected, m, top, lo, hi);
    Elected(depth, lo, hi, sc, LeapOf(cs, AdmissibleList(cs, lo, hi)), m, kept, if kept then selected else m)
  }

  function Crowned(cs: seq<Source>, lo: real, hi: real, scores: seq<real>, winner: nat): seq<Source>
    requires |cs| == |scores| && winner < |cs|
  {
    var table := Rescored(Marked(cs, lo, hi), scores);
    table[winner := table[winner].(status := SYNC)]
  }

  /** The whole source table after the round. */
  function TableAfter(cs: seq<Source>, selected: int, match_: int, round: Round): seq<Source>
    requires INVALID_SOURCE <= selected < |cs| && INVALID_SOURCE <= round.Selected() < |cs|
    requires round.Elected? ==> Scorable(cs, selected, match_, round.scale, round.lo, round.hi)
  {
    match round
    case Waiting => cs
    case NoVotes => cs
    case NoMajority(_, _, _) => seq(|cs|, i requires 0 <= i < |cs| => cs[i].(status := FALSETICKER))
    case Elected(_, lo, hi, scale, _, _, kept, winner) =>
      var scores := if kept then NewScores(cs, selected, match_, scale, lo, hi) else seq(|cs|, i => 1.0);
      Crowned(cs, lo, hi, scores, winner)
  }

  ghost predicate IsElection(cs: seq<Source>, selected: int, match_: int, w: real, reselect: real, round: Round)
    requires INVALID_SOURCE <= selected < |cs| && round.Elected?
  {
    var lo, hi := round.lo, round.hi;
    && AdmissibleList(cs, lo, hi) != []
    && var sc := ScaleOf(cs, lo, hi, w, reselect);
    && Scorable(cs, selected, match_, sc, lo, hi)
    && Leader(cs, NewScores(cs, selected, match_, sc, lo, hi), |cs|, lo, hi).0 >= 0
    && round == ElectionOf(cs, selected, match_, sc, round.depth, lo, hi)
  }

  /** The round is the one the table, the previous selection and the sampled source call for. */
  ghost predicate IsRound(cs: seq<Source>, selected: int, match_: int, w: real, reselect: real, round: Round)
    requires INVALID_SOURCE <= selected < |cs|
  {
    match round
    case Waiting => Waits(cs, selected)
    case NoVotes => !Waits(cs, selected) && Intervals(cs) == []
    case NoMajority(depth, lo, hi) =>
      && !Waits(cs, selected) && Intervals(cs) != [] && Deepest(Intervals(cs), depth, lo, hi)
      && depth <= |Intervals(cs)| / 2
    case Elected(depth, lo, hi, _, _, _, _, _) =>
      && !Waits(cs, selected) && Intervals(cs) != [] && Deepest(Intervals(cs), depth, lo, hi)
      && depth > |Intervals(cs)| / 2
      && IsElection(cs, selected, match_, w, reselect, round)
  }

  function UpdateAfter(cs: seq<Source>, selected: int, match_: int, round: Round): Update
    requires INVALID_SOURCE <= round.Selected() < |cs|
  {
    if !round.Elected? then
      if selected != INVALID_SOURCE then SetUnsynchronised else NoUpdate
    else if round.winner != selected || match_ == cs[round.winner].refId then
      SetReference(round.winner, round.scale.minStratum, round.leap)
    else NoUpdate
  }

  /** Some admissible source lies at a positive weighted distance. */
  ghost predicate HasPositive(cs: seq<Source>, sc: Scale, lo: real, hi: real) {
    exists i :: 0 <= i < |cs| && cs[i].Admissible(lo, hi) && cs[i].Weighted(sc) > 0.0
  }

  lemma WeightedAtReference(s: Source, sc: Scale)
    requires s.stratum == sc.minStratum && s.distance > 0.0 && sc.reselectDistance >= 0.0
    ensures s.Weighted(sc) > 0.0
  {
    assert s.Penalised(sc) == s.distance;
  }

  /** Positive root distances and a reselect distance that is not negative leave a positive
      weighted distance, whatever the strata and their weight. */
  lemma ScaleIsSound(cs: seq<Source>, lo: real, hi: real, w: real, reselect: real)
    requires reselect >= 0.0 && AdmissibleList(cs, lo, hi) != []
    requires forall i :: 0 <= i < |cs| && cs[i].Admissible(lo, hi) ==> cs[i].distance > 0.0
    ensures HasPositive(cs, ScaleOf(cs, lo, hi, w, reselect), lo, hi)
  {
    var sc := ScaleOf(cs, lo, hi, w, reselect);
    ReferenceStratumIsLeast(cs, lo, hi);
    var prefer := exists i :: 0 <= i < |cs| && cs[i].Admissible(lo, hi) && cs[i].option == Prefer;
    var i :| 0 <= i < |cs| && cs[i].Admissible(lo, hi) && (prefer ==> cs[i].option == Prefer) && cs[i].stratum == sc.minStratum;
    WeightedAtReference(cs[i], sc);
  }

  /** The score loop finds a leader, so that its assertion holds, exactly when there is a selected
      source or some admissible one lies at a positive weighted distance. */
  lemma SomeoneLeads(cs: seq<Source>, selected: int, match_: int, sc: Scale, lo: real, hi: real)
    requires INVALID_SOURCE <= selected < |cs| && Scorable(cs, selected, match_, sc, lo, hi)
    requires AdmissibleList(cs, lo, hi) != []
    requires forall k :: 0 <= k < |cs| ==> cs[k].score >= 1.0
    ensures Leader(cs, NewScores(cs, selected, match_, sc, lo, hi), |cs|, lo, hi).0 != INVALID_SOURCE
       <==> selected != INVALID_SOURCE || HasPositive(cs, sc, lo, hi)
    ensures Leader(cs, NewScores(cs, selected, match_, sc, lo, hi), |cs|, lo, hi).0 >= INVALID_SOURCE
  {
    var scores := NewScores(cs, selected, match_, sc, lo, hi);
    LeaderLeads(cs, scores, |cs|, lo, hi);
    var m := Leader(cs, scores, |cs|, lo, hi).0;
    if selected != INVALID_SOURCE {
      var sel := AdmissibleListIsExact(cs, lo, hi);
      assert cs[sel[0]].Admissible(lo, hi);
      assert scores[sel[0]] == NewScore(cs, sel[0], selected, match_, sc, lo, hi) >= 1.0;
    } else {
      forall i | 0 <= i < |cs| && cs[i].Admissible(lo, hi)
        ensures scores[i] > 0.0 <==> cs[i].Weighted(sc) > 0.0
      {
        assert scores[i] == 1.0 / cs[i].Weighted(sc);
      }
      assert m != INVALID_SOURCE ==> cs[m].Admissible(lo, hi) && scores[m] > 0.0;
    }
  }

  /** What a round asks of the distances in case a majority agrees on [lo, hi]. */
  ghost predicate Electable(cs: seq<Source>, selected: int, match_: int, w: real, reselect: real, lo: real, hi: real)
    requires INVALID_SOURCE <= selected < |cs|
  {
    AdmissibleList(cs, lo, hi) != [] ==>
      var sc := ScaleOf(cs, lo, hi, w, reselect);
      && Scorable(cs, selected, match_, sc, lo, hi)
      && (selected != INVALID_SOURCE || HasPositive(cs, sc, lo, hi))
  }

  /** The tables a round is defined on: no swept interval is upside down, the round never divides
      by zero and its assertion holds. */
  ghost predicate Answerable(cs: seq<Source>, selected: int, match_: int, w: real, reselect: real)
    requires INVALID_SOURCE <= selected < |cs|
  {
    && (forall i :: 0 <= i < |cs| && cs[i].status == OK ==> cs[i].lo <= cs[i].hi)
    && (!Waits(cs, selected) ==>
          forall depth: nat, lo, hi :: Deepest(Intervals(cs), depth, lo, hi) && depth > |Intervals(cs)| / 2 ==>
            Electable(cs, selected, match_, w, reselect, lo, hi))
  }

  lemma SoleSource(s: Source)
    requires s.status == OK && s.lo <= s.hi
    ensures Intervals([s]) == [Interval(0, s.lo, s.hi)]
    ensures Deepest(Intervals([s]), 1, s.lo, s.hi)
    ensures CountStatus([s], BAD_STATS) == 0
    ensures AdmissibleList([s], s.lo, s.hi) == [0]
  {
    assert [s][..0] == [];
    var iv := Interval(0, s.lo, s.hi);
    assert Intervals([s]) == [iv];
    hide Intervals, Cover;
    forall x: real ensures Cover([iv], x) == if s.lo <= x <= s.hi then 1 else 0 {
      CoverOfOne(iv, x);
    }
  }

  lemma CoverOfOne(iv: Interval, x: real)
    ensures Cover([iv], x) == if iv.lo <= x <= iv.hi then 1 else 0
  {
    assert [iv][..0] == [];
  }

  /** A negative reselect distance, which SRC_SetReselectDistance accepts, makes the assertion of
      the score loop fail on a first selection although nothing is divided by zero: a single NTP
      server one unit away and a reselect distance of -2. */
  lemma NegativeReselectFails(s: Source, w: real)
    requires s == Source(1, true, Normal, 0, true, 1, LeapNormal, OK, 1.0, 1, 1.0, -1.0, 1.0)
    ensures Deepest(Intervals([s]), 1, -1.0, 1.0) && |Intervals([s])| == 1 && !Waits([s], INVALID_SOURCE)
    ensures AdmissibleList([s], -1.0, 1.0) == [0]
    ensures var sc := ScaleOf([s], -1.0, 1.0, w, -2.0);
            && Scorable([s], INVALID_SOURCE, 0, sc, -1.0, 1.0)
            && Leader([s], NewScores([s], INVALID_SOURCE, 0, sc, -1.0, 1.0), 1, -1.0, 1.0).0 == INVALID_SOURCE
  {
    SoleSource(s);
    var sc := ScaleOf([s], -1.0, 1.0, w, -2.0);
    ReferenceStratumIsLeast([s], -1.0, 1.0);
    assert sc.minStratum == 1;
    assert s.Penalised(sc) == 1.0 && s.Weighted(sc) == -1.0;
    SomeoneLeads([s], INVALID_SOURCE, 0, sc, -1.0, 1.0);
  }

  // ---------- what is reported when the selection is lost ----------

  /** No offset is shared by more than half of the sources in the sweep. */
  ghost predicate NoPointHasMajority(cs: seq<Source>) {
    forall x: real :: 2 * Cover(Intervals(cs), x) <= |Intervals(cs)|
  }

  /** A round selects nothing exactly when it waits or no offset has a majority. */
  lemma NothingIsSelectedWhen(cs: seq<Source>, selected: int, match_: int, w: real, reselect: real, round: Round)
    requires INVALID_SOURCE <= selected < |cs| && IsRound(cs, selected, match_, w, reselect, round)
    ensures INVALID_SOURCE <= round.Selected() < |cs|
    ensures round.Selected() == INVALID_SOURCE <==> Waits(cs, selected) || NoPointHasMajority(cs)
  {
    if round.NoVotes? {
      assert forall x: real :: Cover(Intervals(cs), x) == 0;
    }
    if round.Elected? {
      assert 2 * Cover(Intervals(cs), round.lo) > |Intervals(cs)|;
      LeaderLeads(cs, NewScores(cs, selected, match_, round.scale, round.lo, round.hi), |cs|, round.lo, round.hi);
    }
  }

  /** A round that starts from a selected source and ends without one says so. */
  lemma LossIsReported(cs: seq<Source>, selected: int, match_: int, w: real, reselect: real, round: Round)
    requires 0 <= selected < |cs| && IsRound(cs, selected, match_, w, reselect, round)
    ensures INVALID_SOURCE <= round.Selected() < |cs|
    ensures UpdateAfter(cs, selected, match_, round) == SetUnsynchronised <==> NoPointHasMajority(cs)
  {
    NothingIsSelectedWhen(cs, selected, match_, w, reselect, round);
  }

  /** A reselection forgets the selected source first. It loses that source without a word exactly
      when the new selection waits or no offset has a majority. */
  lemma LossIsUnreported(cs: seq<Source>, w: real, reselect: real, round: Round)
    requires IsRound(cs, INVALID_SOURCE, 0, w, reselect, round)
    ensures INVALID_SOURCE <= round.Selected() < |cs|
    ensures UpdateAfter(cs, INVALID_SOURCE, 0, round) != SetUnsynchronised
    ensures round.Selected() == INVALID_SOURCE && UpdateAfter(cs, INVALID_SOURCE, 0, round) == NoUpdate
       <==> Waits(cs, INVALID_SOURCE) || NoPointHasMajority(cs)
  {
    NothingIsSelectedWhen(cs, INVALID_SOURCE, 0, w, reselect, round);
  }

  lemma PairOfSources(a: Source, b: Source)
    requires a.status == OK && b.status == OK && a.lo <= a.hi < b.lo <= b.hi
    ensures NoPointHasMajority([a, b]) && CountStatus([a, b], BAD_STATS) == 0
  {
    assert [a, b][..1] == [a] && [a][..0] == [];
    assert CountStatus([a], BAD_STATS) == 0;
    assert Intervals([a]) == [Interval(0, a.lo, a.hi)];
    var ivs := [Interval(0, a.lo, a.hi), Interval(1, b.lo, b.hi)];
    assert Intervals([a, b]) == ivs;
    forall x: real ensures Cover(ivs, x) <= 1 {
      assert ivs[..1] == [ivs[0]];
      CoverOfOne(ivs[0], x);
    }
  }

  /** Two sources, the first of them selected, and statistics that put them wide apart: the same
      loss is reported by an ordinary round and not by a reselection. */
  lemma TornTableIsLostSilently(table: seq<Source>, stats: seq<Stats>, w: real, reselect: real,
                                ordinary: Round, reselection: Round)
    requires table == [Source(1, true, Normal, 0, true, 1, LeapNormal, SYNC, 1.0, 1, 1.0, -1.0, 1.0),
                       Source(2, true, Normal, 1, true, 1, LeapNormal, SELECTABLE, 1.0, 1, 1.0, -1.0, 1.0)]
    requires stats == [Stats(true, 1, 0.0, 2.0, 0.0), Stats(true, 1, 10.0, 2.0, 0.0)]
    requires IsRound(ReadAll(table, stats), 0, 0, w, reselect, ordinary)
    requires IsRound(ReadAll(table, stats), INVALID_SOURCE, 0, w, reselect, reselection)
    ensures WellIndexed(table) && OnlySync(table, 0)
    ensures ordinary.Selected() == reselection.Selected() == INVALID_SOURCE
    ensures UpdateAfter(ReadAll(table, stats), 0, 0, ordinary) == SetUnsynchronised
    ensures UpdateAfter(ReadAll(table, stats), INVALID_SOURCE, 0, reselection) == NoUpdate
  {
    var cs := ReadAll(table, stats);
    var a, b := cs[0], cs[1];
    assert cs == [a, b];
    PairOfSources(a, b);
    NothingIsSelectedWhen(cs, 0, 0, w, reselect, ordinary);
    NothingIsSelectedWhen(cs, INVALID_SOURCE, 0, w, reselect, reselection);
  }

  /** What an election means: the current source is kept unless it is no longer admissible or
      another admissible source scores above the limit; otherwise the first of the best scored
      admissible sources wins. Strata are measured from the least one among the preferred. */
  lemma ElectionMeaning(cs: seq<Source>, selected: int, match_: int, w: real, reselect: real, round: Round)
    requires INVALID_SOURCE <= selected < |cs| && round.Elected? && IsElection(cs, selected, match_, w, reselect, round)
    ensures IsReferenceStratum(cs, round.lo, round.hi, round.scale.minStratum)
    ensures round.winner < |cs| && cs[round.winner].Admissible(round.lo, round.hi)
    ensures var scores := NewScores(cs, selected, match_, round.scale, round.lo, round.hi);
            && Leads(cs, round.leader, scores, round.lo, round.hi)
            && (selected == INVALID_SOURCE || !cs[selected].Admissible(round.lo, round.hi) ==> round.winner == round.leader)
            && (selected != INVALID_SOURCE && cs[selected].Admissible(round.lo, round.hi) ==>
                 (round.winner != selected <==>
                  exists i :: 0 <= i < |cs| && cs[i].Admissible(round.lo, round.hi) && scores[i] > SCORE_LIMIT &&
                              (scores[selected] < scores[i] || (scores[selected] == scores[i] && round.leader < selected))))
    ensures selected == INVALID_SOURCE ==>
              cs[round.winner].Weighted(round.scale) > 0.0 &&
              forall i :: 0 <= i < |cs| && cs[i].Admissible(round.lo, round.hi) && cs[i].Weighted(round.scale) > 0.0 ==>
                cs[round.winner].Weighted(round.scale) <= cs[i].Weighted(round.scale)
  {
    ReferenceStratumIsLeast(cs, round.lo, round.hi);
    var scores := NewScores(cs, selected, match_, round.scale, round.lo, round.hi);
    LeaderLeads(cs, scores, |cs|, round.lo, round.hi);
    if selected == INVALID_SOURCE {
      FirstElectionIsNearest(cs, round.leader, match_, round.scale, round.lo, round.hi);
    }
  }

  ghost predicate WellIndexed(ss: seq<Source>) {
    forall i :: 0 <= i < |ss| ==> ss[i].index == i && ss[i].score >= 1.0
  }

  ghost predicate OnlySync(ss: seq<Source>, selected: int) {
    forall i :: 0 <= i < |ss| ==> (ss[i].status == SYNC <==> i == selected)
  }

  lemma ElectionKeepsInvariant(cs: seq<Source>, selected: int, match_: int, w: real, reselect: real, round: Round)
    requires INVALID_SOURCE <= selected < |cs| && Fresh(cs) && WellIndexed(cs)
    requires round.Elected? && IsElection(cs, selected, match_, w, reselect, round)
    ensures round.winner < |cs| && cs[round.winner].status == OK
    ensures var after := TableAfter(cs, selected, match_, round);
            && |after| == |cs| && WellIndexed(after) && OnlySync(after, round.winner)
            && forall i :: 0 <= i < |cs| ==> after[i].selectable == cs[i].selectable
  {
    var lo, hi, sc := round.lo, round.hi, round.scale;
    LeaderLeads(cs, NewScores(cs, selected, match_, sc, lo, hi), |cs|, lo, hi);
    var after := TableAfter(cs, selected, match_, round);
    forall i | 0 <= i < |cs|
      ensures after[i].score >= 1.0 && after[i].index == i && after[i].selectable == cs[i].selectable
      ensures after[i].status == SYNC <==> i == round.winner
    {
      assert after[i].score == if round.kept then NewScore(cs, i, selected, match_, sc, lo, hi) else 1.0;
    }
  }

  /** A round re-establishes the table's invariant whatever the statuses were before it, and only
      a source that took part in the sweep can come out selected. */
  lemma RoundKeepsInvariant(cs: seq<Source>, selected: int, match_: int, w: real, reselect: real, round: Round)
    requires INVALID_SOURCE <= selected < |cs| && Fresh(cs) && WellIndexed(cs)
    requires IsRound(cs, selected, match_, w, reselect, round)
    ensures INVALID_SOURCE <= round.Selected() < |cs|
    ensures var after := TableAfter(cs, selected, match_, round);
            && |after| == |cs| && WellIndexed(after) && OnlySync(after, round.Selected())
            && forall i :: 0 <= i < |cs| ==> after[i].selectable == cs[i].selectable
    ensures round.Selected() != INVALID_SOURCE ==> cs[round.Selected()].status == OK
  {
    if round.Elected? {
      ElectionKeepsInvariant(cs, selected, match_, w, reselect, round);
    }
  }

  /** The table without source number `dead`, later sources renumbered. */
  function Removed(ss: seq<Source>, dead: nat): seq<Source>
    requires dead < |ss|
  {
    seq(|ss| - 1, i requires 0 <= i < |ss| - 1 => if i < dead then ss[i] else ss[i + 1].(index := i))
  }

  lemma RemovedKeepsInvariant(ss: seq<Source>, dead: nat, winner: int)
    requires dead < |ss| && WellIndexed(ss) && OnlySync(ss, winner) && -1 <= winner < |ss| && winner != dead
    ensures WellIndexed(Removed(ss, dead))
    ensures OnlySync(Removed(ss, dead), if winner > dead then winner - 1 else winner)
  {
  }

  /** The register keeps the last eight polls, the newest in its lowest bit. */
  function Polled(ss: seq<Source>, i: nat, reachable: bool): seq<Source>
    requires i < |ss|
  {
    ss[i := ss[i].(reachability := (ss[i].reachability * 2 + if reachable then 1 else 0) % 256)]
  }

  function Unset(ss: seq<Source>, i: nat): seq<Source>
    requires i < |ss|
  {
    ss[i := ss[i].(selectable := false)]
  }

  lemma ReadIsFresh(ss: seq<Source>, stats: seq<Stats>)
    requires |ss| == |stats| && WellIndexed(ss)
    ensures Fresh(ReadAll(ss, stats)) && WellIndexed(ReadAll(ss, stats)) && |ReadAll(ss, stats)| == |ss|
  {
  }

  // ---------- the source table ----------

  class SourceTable {
    var sources: seq<Source>
    var selected: int
    var reselectDistance: real
    var stratumWeight: real

    /** Every record knows its place, scores are at least 1, and the selected source, and no
        other, is marked SYNC. */
    ghost predicate Valid() reads this {
      && INVALID_SOURCE <= selected < |sources|
      && WellIndexed(sources)
      && OnlySync(sources, selected)
    }

    constructor (reselectDistance: real, stratumWeight: real)
      ensures Valid() && sources == [] && selected == INVALID_SOURCE
    {
      sources, selected := [], INVALID_SOURCE;
      this.reselectDistance, this.stratumWeight := reselectDistance, stratumWeight;
    }

    // ---------- one selection round, step by step ----------

    /** Step 1: read the statistics, classify every source and collect the intervals. */
    method BuildIntervals(stats: seq<Stats>)
      returns (ivs: seq<Interval>, nBad: nat, maxSelReach: nat, maxBadReach: nat)
      requires |stats| == |sources|
      modifies this`sources
      ensures sources == ReadAll(old(sources), stats)
      ensures ivs == Intervals(sources) && nBad == CountStatus(sources, BAD_STATS)
      ensures maxSelReach == MaxReach(sources, OK) && maxBadReach == MaxReach(sources, BAD_STATS)
    {
      ghost var cs := ReadAll(sources, stats);
      ivs, nBad, maxSelReach, maxBadReach := [], 0, 0, 0;
      for i := 0 to |sources|
        invariant |sources| == |cs|
        invariant forall k :: 0 <= k < i ==> sources[k] == cs[k]
        invariant forall k :: i <= k < |cs| ==> sources[k] == old(sources)[k]
        invariant ivs == Intervals(cs[..i]) && nBad == CountStatus(cs[..i], BAD_STATS)
        invariant maxSelReach == MaxReach(cs[..i], OK) && maxBadReach == MaxReach(cs[..i], BAD_STATS)
      {
        RoundStep(cs, i);
        var s, st := sources[i], stats[i];
        if s.Eligible() {
          var d := RootDistance(st);
          s := s.(stratum := st.stratum, distance := d, lo := st.offset - d, hi := st.offset + d);
          if st.ok {
            s := s.(status := OK);
            ivs := ivs + [Interval(i, s.lo, s.hi)];
            maxSelReach := MaxIf(true, s.reachability, maxSelReach);
          } else {
            nBad := nBad + 1;
            s := s.(status := BAD_STATS);
            maxBadReach := MaxIf(true, s.reachability, maxBadReach);
          }
        } else {
          s := s.(status := UNREACHABLE);
        }
        sources := sources[i := s];
      }
      assert cs[..|cs|] == cs;
    }

    /** Nobody has a majority: mark all sources as falsetickers. */
    method MarkAllFalse()
      modifies this`sources
      ensures sources == seq(|old(sources)|, i requires 0 <= i < |old(sources)| => old(sources)[i].(status := FALSETICKER))
    {
      for i := 0 to |sources|
        invariant |sources| == |old(sources)|
        invariant forall k :: 0 <= k < i ==> sources[k] == old(sources)[k].(status := FALSETICKER)
        invariant forall k :: i <= k < |sources| ==> sources[k] == old(sources)[k]
      {
        sources := sources[i := sources[i].(status := FALSETICKER)];
      }
    }

    /** Step 3: tell the admissible sources from the falsetickers. */
    method FindAdmissible(lo: real, hi: real) returns (sel: seq<nat>)
      modifies this`sources
      ensures sel == AdmissibleList(old(sources), lo, hi) && |sources| == |old(sources)|
      ensures forall k :: 0 <= k < |sources| ==>
                (sources[k] == if old(sources)[k].Admissible(lo, hi) then old(sources)[k] else old(sources)[k].Mark(lo, hi))
    {
      ghost var cs := sources;
      sel := [];
      for i := 0 to |sources|
        invariant sel == AdmissibleList(cs[..i], lo, hi) && |sources| == |cs|
        invariant forall k :: 0 <= k < i ==> sources[k] == if cs[k].Admissible(lo, hi) then cs[k] else cs[k].Mark(lo, hi)
        invariant forall k :: i <= k < |sources| ==> sources[k] == cs[k]
      {
        assert cs[..i + 1][..i] == cs[..i];
        var s := sources[i];
        if s.status == OK {
          if (s.lo <= lo && s.hi >= hi) || (s.lo >= lo && s.hi <= hi) {
            sel := sel + [i];
          } else {
            sources := sources[i := s.(status := FALSETICKER)];
          }
        }
      }
      assert cs[..|cs|] == cs;
    }

    /** Mark what is left in the list as selectable. */
    method MarkSelectable(sel: seq<nat>, lo: real, hi: real, ghost cs: seq<Source>)
      requires sel == AdmissibleList(cs, lo, hi) && |sources| == |cs|
      requires forall k :: 0 <= k < |cs| ==>
                 sources[k] == if cs[k].Admissible(lo, hi) then cs[k] else cs[k].Mark(lo, hi)
      modifies this`sources
      ensures sources == Marked(cs, lo, hi)
    {
      ghost var list := AdmissibleListIsExact(cs, lo, hi);
      hide AdmissibleList, Source.Admissible, Source.Mark;
      for i := 0 to |sel|
        invariant |sources| == |cs|
        invariant forall k :: 0 <= k < |cs| ==>
          sources[k] == if cs[k].Admissible(lo, hi) && k !in sel[..i] then cs[k] else cs[k].Mark(lo, hi)
      {
        assert sel[..i + 1] == sel[..i] + [sel[i]];
        MarkAdmissible(cs[sel[i]], lo, hi);
        sources := sources[sel[i] := sources[sel[i]].(status := SELECTABLE)];
      }
      assert sel[..|sel|] == sel;
    }

    /** Step 4: the leap second vote among the selectable sources. */
    method VoteOnLeap(sel: seq<nat>, ghost lo: real, ghost hi: real, ghost cs: seq<Source>) returns (leap: Leap)
      requires Indices(sel, |cs|) && sources == Marked(cs, lo, hi)
      ensures leap == LeapOf(cs, sel)
    {
      var j1, j2 := 0, 0;
      for i := 0 to |sel|
        invariant j1 == CountLeap(cs, sel[..i], InsertSecond)
        invariant j2 == CountLeap(cs, sel[..i], DeleteSecond)
      {
        assert sel[..i + 1][..i] == sel[..i];
        if sources[sel[i]].leap == InsertSecond {
          j1 := j1 + 1;
        } else if sources[sel[i]].leap == DeleteSecond {
          j2 := j2 + 1;
        }
      }
      assert sel[..|sel|] == sel;
      leap := if j1 > |sel| / 2 then InsertSecond else if j2 > |sel| / 2 then DeleteSecond else LeapNormal;
    }

    /** Step 5: narrow the list to the preferred sources, if there are any. */
    method NarrowToPreferred(sel: seq<nat>, ghost lo: real, ghost hi: real, ghost cs: seq<Source>)
      returns (list: seq<nat>)
      requires Indices(sel, |cs|) && sources == Marked(cs, lo, hi)
      ensures list == Finalists(cs, sel)
    {
      list := [];
      for i := 0 to |sel|
        invariant list == Preferred(cs, sel[..i])
      {
        assert sel[..i + 1][..i] == sel[..i];
        if sources[sel[i]].option == Prefer {
          list := list + [sel[i]];
        }
      }
      assert sel[..|sel|] == sel;
      if |list| == 0 {
        list := sel;
      }
    }

    method FindLeastStratum(list: seq<nat>, ghost lo: real, ghost hi: real, ghost cs: seq<Source>)
      returns (minStratum: int)
      requires list != [] && Indices(list, |cs|) && sources == Marked(cs, lo, hi)
      ensures minStratum == LeastStratum(cs, list)
    {
      minStratum := sources[list[0]].stratum;
      assert list[..1] == [list[0]];
      for i := 1 to |list|
        invariant minStratum == LeastStratum(cs, list[..i])
      {
        assert list[..i + 1][..i] == list[..i];
        var stratum := sources[list[i]].stratum;
        if stratum < minStratum {
          minStratum := stratum;
        }
      }
      assert list[..|list|] == list;
    }

    /** Step 6: update the scores and find the leader. */
    method UpdateScores(sc: Scale, match_: int, ghost lo: real, ghost hi: real, ghost cs: seq<Source>)
      returns (maxIndex: int, maxScore: real)
      requires INVALID_SOURCE <= selected < |cs| && Scorable(cs, selected, match_, sc, lo, hi)
      requires Fresh(cs) && sources == Marked(cs, lo, hi)
      modifies this`sources
      ensures var scores := NewScores(cs, selected, match_, sc, lo, hi);
              && sources == Rescored(Marked(cs, lo, hi), scores)
              && (maxIndex, maxScore) == Leader(cs, scores, |cs|, lo, hi)
    {
      ghost var marked, scores := sources, NewScores(cs, selected, match_, sc, lo, hi);
      maxIndex, maxScore := INVALID_SOURCE, 0.0;
      var selDistance := if selected != INVALID_SOURCE then sources[selected].Penalised(sc) else 0.0;
      for i := 0 to |sources|
        invariant |sources| == |cs|
        invariant forall k :: 0 <= k < i ==> sources[k] == marked[k].(score := scores[k])
        invariant forall k :: i <= k < |cs| ==> sources[k] == marked[k]
        invariant (maxIndex, maxScore) == Leader(cs, scores, i, lo, hi)
      {
        var s := ScoreOne(i, sources[i], selDistance, sc, match_, lo, hi, cs);
        if s.status == SELECTABLE && maxScore < s.score {
          maxScore, maxIndex := s.score, i;
        }
        sources := sources[i := s];
      }
    }

    method ScoreOne(i: nat, s: Source, selDistance: real, sc: Scale, match_: int, ghost lo: real, ghost hi: real,
                    ghost cs: seq<Source>)
      returns (s': Source)
      requires INVALID_SOURCE <= selected < |cs| == |sources| && Scorable(cs, selected, match_, sc, lo, hi)
      requires i < |cs| && s == cs[i].Mark(lo, hi) && s.status != OK && (s.status == SELECTABLE ==> cs[i].status == OK)
      requires selected != INVALID_SOURCE ==>
                 selDistance == cs[selected].Penalised(sc) && sources[selected].refId == cs[selected].refId
      ensures s' == s.(score := NewScore(cs, i, selected, match_, sc, lo, hi))
    {
      if s.status != SELECTABLE {
        return s.(score := 1.0);
      }
      var distance := s.Weighted(sc);
      s' := s;
      if selected != INVALID_SOURCE {
        if s.refId == match_ || sources[selected].refId == match_ {
          s' := s'.(score := Scaled(s.score, selDistance, distance));
          if s'.score < 1.0 {
            s' := s'.(score := 1.0);
          }
        }
      } else {
        s' := s'.(score := 1.0 / distance);
      }
    }

    /** Step 7: keep the current source, or elect the leader and forget all scores. */
    method Elect(maxIndex: nat, maxScore: real, ghost lo: real, ghost hi: real, ghost cs: seq<Source>, ghost scores: seq<real>)
      requires INVALID_SOURCE <= selected < |cs| == |scores| && maxIndex < |cs|
      requires Fresh(cs) && sources == Rescored(Marked(cs, lo, hi), scores)
      modifies this`selected, this`sources
      ensures var kept := Kept(cs, old(selected), maxIndex, maxScore, lo, hi);
              && selected == (if kept then old(selected) else maxIndex)
              && sources == Crowned(cs, lo, hi, if kept then scores else seq(|cs|, i => 1.0), selected)
    {
      if selected == INVALID_SOURCE || sources[selected].status != SELECTABLE ||
         (maxIndex != selected && maxScore > SCORE_LIMIT) {
        selected := maxIndex;
        for i := 0 to |sources|
          modifies this`sources
          invariant |sources| == |cs|
          invariant forall k :: 0 <= k < i ==> sources[k] == cs[k].Mark(lo, hi).(score := 1.0)
          invariant forall k :: i <= k < |cs| ==> sources[k] == cs[k].Mark(lo, hi).(score := scores[k])
        {
          sources := sources[i := sources[i].(score := 1.0)];
        }
      }
      sources := sources[selected := sources[selected].(status := SYNC)];
    }

    /** The branch of a round taken when a majority agrees on [lo, hi]. */
    method ElectAmong(match_: int, ghost depth: nat, lo: real, hi: real)
      returns (minStratum: int, leap: Leap, ghost round: Round)
      requires INVALID_SOURCE <= selected < |sources| && Fresh(sources)
      requires AdmissibleList(sources, lo, hi) != []
      requires var sc := ScaleOf(sources, lo, hi, stratumWeight, reselectDistance);
               && Scorable(sources, selected, match_, sc, lo, hi)
               && Leader(sources, NewScores(sources, selected, match_, sc, lo, hi), |sources|, lo, hi).0 >= 0
      modifies this`selected, this`sources
      ensures var sc := ScaleOf(old(sources), lo, hi, stratumWeight, reselectDistance);
              && round == ElectionOf(old(sources), old(selected), match_, sc, depth, lo, hi)
              && minStratum == sc.minStratum
      ensures leap == round.leap && selected == round.winner < |old(sources)|
      ensures sources == TableAfter(old(sources), old(selected), match_, round)
    {
      ghost var cs := sources;
      FinalistsAreIndices(cs, lo, hi);
      var sel := FindAdmissible(lo, hi);
      MarkSelectable(sel, lo, hi, cs);
      leap := VoteOnLeap(sel, lo, hi, cs);
      var list := NarrowToPreferred(sel, lo, hi, cs);
      minStratum := FindLeastStratum(list, lo, hi, cs);
      var sc := Scale(minStratum, stratumWeight, reselectDistance);
      ghost var scores := NewScores(cs, selected, match_, sc, lo, hi);
      round := ElectionOf(cs, selected, match_, sc, depth, lo, hi);
      var maxIndex, maxScore := UpdateScores(sc, match_, lo, hi, cs);
      LeaderLeads(cs, scores, |cs|, lo, hi);
      Elect(maxIndex, maxScore, lo, hi, cs, scores);
    }

    /** Step 2 and what follows from it: sweep the intervals and elect, or give up. */
    method SweepAndElect(match_: int, ivs: seq<Interval>) returns (minStratum: int, leap: Leap, ghost round: Round)
      requires INVALID_SOURCE <= selected < |sources| && Fresh(sources)
      requires WellIndexed(sources)
      requires Answerable(sources, selected, match_, stratumWeight, reselectDistance)
      requires ivs == Intervals(sources) != [] && !Waits(sources, selected)
      modifies this`selected, this`sources
      ensures round.Elected? || round.NoMajority?
      ensures IsRound(old(sources), old(selected), match_, stratumWeight, reselectDistance, round)
      ensures selected == round.Selected() < |old(sources)|
      ensures sources == TableAfter(old(sources), old(selected), match_, round)
      ensures round.Elected? ==> minStratum == round.scale.minStratum && leap == round.leap
    {
      IntervalsAreVotes(sources);
      SortGivesSortList(ivs);
      var depth, lo, hi := FindBestInterval(Sort(Endpoints(ivs), Before), ivs);
      if depth <= |ivs| / 2 {
        selected := INVALID_SOURCE;
        MarkAllFalse();
        minStratum, leap, round := 0, LeapNormal, NoMajority(depth, lo, hi);
      } else {
        MajorityIsSelectable(sources, depth, lo, hi);
        assert Electable(sources, selected, match_, stratumWeight, reselectDistance, lo, hi);
        SomeoneLeads(sources, selected, match_, ScaleOf(sources, lo, hi, stratumWeight, reselectDistance), lo, hi);
        minStratum, leap, round := ElectAmong(match_, depth, lo, hi);
      }
    }

    /** One selection round. */
    method SelectSource(match_: int, stats: seq<Stats>) returns (update: Update, ghost round: Round)
      requires INVALID_SOURCE <= selected < |sources| == |stats|
      requires WellIndexed(sources)
      requires Answerable(ReadAll(sources, stats), selected, match_, stratumWeight, reselectDistance)
      modifies this`selected, this`sources
      ensures var cs := ReadAll(old(sources), stats);
              && IsRound(cs, old(selected), match_, stratumWeight, reselectDistance, round)
              && selected == round.Selected() < |cs|
              && sources == TableAfter(cs, old(selected), match_, round)
              && update == UpdateAfter(cs, old(selected), match_, round)
    {
      hide Answerable, WellIndexed, Fresh;
      ReadIsFresh(sources, stats);
      update := NoUpdate;
      var oldSelected := selected;
      var ivs, nBad, maxSelReach, maxBadReach := BuildIntervals(stats);
      IntervalsAreVotes(sources);
      if nBad > 0 && |ivs| > 0 && selected == INVALID_SOURCE && maxSelReach / 2 == maxBadReach {
        return NoUpdate, Waiting;
      }
      if |ivs| > 0 {
        var minStratum, leap;
        minStratum, leap, round := SweepAndElect(match_, ivs);
        if selected != INVALID_SOURCE {
          if selected != oldSelected || match_ == sources[selected].refId {
            update := SetReference(selected, minStratum, leap);
          }
        }
      } else {
        selected := INVALID_SOURCE;
        round := NoVotes;
      }
      if selected == INVALID_SOURCE && selected != oldSelected {
        update := SetUnsynchronised;
      }
    }

    // ---------- the calls of the other modules ----------

    method CreateNewInstance(refId: int, ntp: bool, option: SelectOption)
      requires Valid()
      modifies this`sources
      ensures Valid()
      ensures |sources| == |old(sources)| + 1 && sources[..|old(sources)|] == old(sources)
      ensures var s := sources[|old(sources)|];
              s.refId == refId && s.ntp == ntp && s.option == option && !s.Eligible() && s.status == BAD_STATS
    {
      sources := sources + [Source(refId, ntp, option, |sources|, false, 0, LeapNormal, BAD_STATS, 1.0, 0, 0.0, 0.0, 0.0)];
    }

    method SetSelectable(i: nat)
      requires Valid() && i < |sources|
      modifies this`sources
      ensures Valid() && sources == old(sources)[i := old(sources)[i].(selectable := true)]
    {
      sources := sources[i := sources[i].(selectable := true)];
    }

    /** Forget the selection and elect again from scratch. A reselection that finds no source is
        not reported to the reference module, which goes on following the forgotten one. */
    method ReselectSource(stats: seq<Stats>) returns (update: Update, ghost round: Round)
      requires Valid() && |stats| == |sources|
      requires Answerable(ReadAll(sources, stats), INVALID_SOURCE, 0, stratumWeight, reselectDistance)
      modifies this`selected, this`sources
      ensures Valid()
      ensures var cs := ReadAll(old(sources), stats);
              && IsRound(cs, INVALID_SOURCE, 0, stratumWeight, reselectDistance, round)
              && selected == round.Selected() < |cs|
              && sources == TableAfter(cs, INVALID_SOURCE, 0, round)
              && update == UpdateAfter(cs, INVALID_SOURCE, 0, round) != SetUnsynchronised
              && (selected == INVALID_SOURCE && update == NoUpdate <==>
                  Waits(cs, INVALID_SOURCE) || NoPointHasMajority(cs))
    {
      selected := INVALID_SOURCE;
      update, round := Reconsider(0, stats);
      LossIsUnreported(ReadAll(old(sources), stats), stratumWeight, reselectDistance, round);
    }

    /** Select again after new data or bad news about source i. */
    method Reconsider(match_: int, stats: seq<Stats>) returns (update: Update, ghost round: Round)
      requires INVALID_SOURCE <= selected < |sources| == |stats| && WellIndexed(sources)
      requires Answerable(ReadAll(sources, stats), selected, match_, stratumWeight, reselectDistance)
      modifies this`selected, this`sources
      ensures Valid()
      ensures var cs := ReadAll(old(sources), stats);
              && IsRound(cs, old(selected), match_, stratumWeight, reselectDistance, round)
              && selected == round.Selected() < |cs|
              && (selected != INVALID_SOURCE ==> cs[selected].status == OK)
              && sources == TableAfter(cs, old(selected), match_, round)
              && update == UpdateAfter(cs, old(selected), match_, round)
    {
      hide IsRound, TableAfter, UpdateAfter, ReadAll, Answerable, Fresh;
      ReadIsFresh(sources, stats);
      update, round := SelectSource(match_, stats);
      RoundKeepsInvariant(ReadAll(old(sources), stats), old(selected), match_, stratumWeight, reselectDistance, round);
    }

    method AccumulateSample(i: nat, leap: Leap, stats: seq<Stats>) returns (update: Update, ghost round: Round)
      requires Valid() && i < |sources| == |stats|
      requires Answerable(ReadAll(sources[i := sources[i].(leap := leap)], stats), selected, sources[i].refId,
                          stratumWeight, reselectDistance)
      modifies this`selected, this`sources
      ensures Valid()
      ensures var cs := ReadAll(old(sources)[i := old(sources)[i].(leap := leap)], stats);
              && IsRound(cs, old(selected), old(sources)[i].refId, stratumWeight, reselectDistance, round)
              && selected == round.Selected() < |cs|
              && sources == TableAfter(cs, old(selected), old(sources)[i].refId, round)
              && update == UpdateAfter(cs, old(selected), old(sources)[i].refId, round)
    {
      sources := sources[i := sources[i].(leap := leap)];
      update, round := Reconsider(sources[i].refId, stats);
    }

    /** A source that may no longer be used; reselect if it was the reference. */
    method UnsetSelectable(i: nat, stats: seq<Stats>) returns (update: Update, ghost round: Round)
      requires Valid() && i < |sources| == |stats|
      requires i == selected ==>
                 Answerable(ReadAll(Unset(sources, i), stats), i, 0, stratumWeight, reselectDistance)
      modifies this`selected, this`sources
      ensures Valid() && |sources| == |old(sources)| && selected != i && !sources[i].selectable
      ensures i != old(selected) ==>
                sources == Unset(old(sources), i) && selected == old(selected) && update == NoUpdate
      ensures i == old(selected) ==>
                var cs := ReadAll(Unset(old(sources), i), stats);
                && IsRound(cs, i, 0, stratumWeight, reselectDistance, round)
                && selected == round.Selected() < |cs| && sources == TableAfter(cs, i, 0, round)
                && update == UpdateAfter(cs, i, 0, round)
    {
      update, round := NoUpdate, Waiting;
      sources := Unset(sources, i);
      if i == selected {
        ghost var cs := ReadAll(sources, stats);
        update, round := Reconsider(0, stats);
        assert cs[i].status == UNREACHABLE && !cs[i].selectable;
      }
    }

    /** Shift the register of the last eight polls; an unanswered poll of the reference makes the
        module look for a better one. */
    method UpdateReachability(i: nat, reachable: bool, stats: seq<Stats>) returns (update: Update, ghost round: Round)
      requires Valid() && i < |sources| == |stats|
      requires !reachable && i == selected ==>
                 Answerable(ReadAll(Polled(sources, i, reachable), stats), i, 0, stratumWeight, reselectDistance)
      modifies this`selected, this`sources
      ensures Valid()
      ensures reachable || i != old(selected) ==>
                sources == Polled(old(sources), i, reachable) && selected == old(selected) && update == NoUpdate
      ensures !reachable && i == old(selected) ==>
                var cs := ReadAll(Polled(old(sources), i, false), stats);
                && IsRound(cs, i, 0, stratumWeight, reselectDistance, round)
                && selected == round.Selected() < |cs| && sources == TableAfter(cs, i, 0, round)
                && update == UpdateAfter(cs, i, 0, round)
    {
      update, round := NoUpdate, Waiting;
      sources := Polled(sources, i, reachable);
      if !reachable && i == selected {
        update, round := Reconsider(0, stats);
      }
    }

    /** Drop source number `dead`: `before` is the table without its consent to be used, on which
        a round was held if it was the selected one. The selection never ends up on the dead
        source or slips to its neighbour: it is the winner among the others, renumbered. */
    method DestroyInstance(dead: nat, stats: seq<Stats>)
      returns (update: Update, ghost before: seq<Source>, ghost winner: int, ghost round: Round)
      requires Valid() && dead < |sources| == |stats|
      requires dead == selected ==>
                 Answerable(ReadAll(Unset(sources, dead), stats), dead, 0, stratumWeight, reselectDistance)
      modifies this`selected, this`sources
      ensures Valid()
      ensures |before| == |old(sources)| && sources == Removed(before, dead)
      ensures INVALID_SOURCE <= winner < |before| && winner != dead && OnlySync(before, winner)
      ensures selected == if winner > dead then winner - 1 else winner
      ensures selected != INVALID_SOURCE ==> sources[selected] == before[winner].(index := selected)
      ensures dead != old(selected) ==>
                before == Unset(old(sources), dead) && winner == old(selected) && update == NoUpdate
      ensures dead == old(selected) ==>
                var cs := ReadAll(Unset(old(sources), dead), stats);
                && IsRound(cs, dead, 0, stratumWeight, reselectDistance, round)
                && winner == round.Selected() < |cs| && before == TableAfter(cs, dead, 0, round)
                && update == UpdateAfter(cs, dead, 0, round)
    {
      update, round := UnsetSelectable(dead, stats);
      before, winner := sources, selected;
      RemoveRecord(dead);
      RemovedKeepsInvariant(before, dead, winner);
      if selected > dead {
        selected := selected - 1;
      }
    }

    method RemoveRecord(dead: nat)
      requires dead < |sources|
      modifies this`sources
      ensures sources == Removed(old(sources), dead)
    {
      for i := dead to |sources| - 1
        invariant |sources| == |old(sources)|
        invariant forall k :: 0 <= k < dead ==> sources[k] == old(sources)[k]
        invariant forall k :: dead <= k < i ==> sources[k] == old(sources)[k + 1].(index := k)
        invariant forall k :: i < k < |sources| ==> sources[k] == old(sources)[k]
      {
        sources := sources[i := sources[i + 1]];
        sources := sources[i := sources[i].(index := i)];
      }
      sources := sources[..|sources| - 1];
    }
  }
}
