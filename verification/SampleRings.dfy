/** The sample history of one source (sourcestats.c): a ring of 128 epochs and a ring of 64 peer
    records driven by one cursor. */
module SampleRings {
  import opened Numbers

  const MAX_SAMPLES: nat := 64

  /** MAX_SAMPLES times REGRESS_RUNS_RATIO, which is 2. */
  const RING: nat := 128

  /** How many extra samples may be kept beside n live ones: n times REGRESS_RUNS_RATIO less 1. */
  function RunsLimit(n: nat): nat { n }

  /** The fields kept for MAX_SAMPLES * REGRESS_RUNS_RATIO samples. */
  datatype Epoch = Epoch(time: real, offset: real)

  /** The fields kept for MAX_SAMPLES samples. */
  datatype Peer = Peer(origOffset: real, delay: real, dispersion: real, rootDelay: real, rootDispersion: real,
                       stratum: int)

  // ---------- the two index maps ----------

  /** get_runsbuf_index: slot of the i-th sample in the ring of epochs; negative i reach the extra ones. */
  function RunsIndex(last: nat, n: nat, i: int): int {
    (last + 2 * RING - n + i + 1) % RING
  }

  /** get_buf_index: slot of the i-th sample in the ring of peer records. */
  function BufIndex(last: nat, n: nat, i: int): int {
    (last + RING - n + i + 1) % MAX_SAMPLES
  }

  /** The slot d steps behind the newest. */
  function Back(last: nat, d: nat): (s: nat)
    requires last < RING && d < RING
    ensures s < RING
  {
    if d <= last then last - d else last + RING - d
  }

  function Half(s: nat): (m: nat)
    requires s < RING
    ensures m < MAX_SAMPLES
  {
    if s < MAX_SAMPLES then s else s - MAX_SAMPLES
  }

  /** Both index maps count back from the newest sample and agree modulo 64. */
  lemma IndexMaps(last: nat, n: nat, i: int)
    requires last < RING && n <= MAX_SAMPLES && n - RING <= i < n
    ensures RunsIndex(last, n, i) == Back(last, n - 1 - i)
    ensures BufIndex(last, n, i) == Half(Back(last, n - 1 - i))
    ensures RunsIndex(last, n, i) % MAX_SAMPLES == BufIndex(last, n, i)
  {
    var d := n - 1 - i;
    assert RunsIndex(last, n, i) == (last + 256 - d) % 128;
    assert BufIndex(last, n, i) == (last + 128 - d) % 64;
  }

  /** No two samples share a slot: neither two of the 128 epochs nor two of the last 64 peer records. */
  lemma IndexesDiffer(last: nat, n: nat, i: int, j: int)
    requires last < RING && n <= MAX_SAMPLES && n - RING <= i < j < n
    ensures RunsIndex(last, n, i) != RunsIndex(last, n, j)
    ensures 0 <= i ==> BufIndex(last, n, i) != BufIndex(last, n, j)
  {
    IndexMaps(last, n, i);
    IndexMaps(last, n, j);
    hide RunsIndex, BufIndex;
  }

  // ---------- what the rings stand for ----------

  /** The last k entries of the ring of epochs, oldest first. */
  ghost function EpochsOf(ring: seq<Epoch>, last: nat, k: nat): (e: seq<Epoch>)
    requires |ring| == RING && last < RING && k <= RING
    ensures |e| == k
  {
    seq(k, i requires 0 <= i < k => ring[Back(last, k - 1 - i)])
  }

  /** The last k entries of the ring of peer records, oldest first. */
  ghost function PeersOf(ring: seq<Peer>, last: nat, k: nat): (p: seq<Peer>)
    requires |ring| == MAX_SAMPLES && last < RING && k <= MAX_SAMPLES
    ensures |p| == k
  {
    seq(k, i requires 0 <= i < k => ring[Half(Back(last, k - 1 - i))])
  }

  function Advance(last: nat): (n: nat)
    requires last < RING
    ensures n < RING
  {
    if last + 1 == RING then 0 else last + 1
  }

  lemma CursorStep(last: nat)
    requires last < RING
    ensures (last + 1) % RING == Advance(last)
    ensures Advance(last) % MAX_SAMPLES == Half(Advance(last))
  {
  }

  lemma BackFromNext(last: nat, d: nat)
    requires last < RING && d + 1 < RING
    ensures Back(Advance(last), d + 1) == Back(last, d)
    ensures Back(Advance(last), d + 1) != Advance(last)
    ensures d + 1 < MAX_SAMPLES ==> Half(Back(last, d)) != Half(Advance(last))
  {
  }

  /** Writing an epoch at the advanced cursor appends it and overwrites none of the others. */
  lemma EpochAppends(ring: seq<Epoch>, last: nat, k: nat, e: Epoch)
    requires |ring| == RING && last < RING && k < RING
    ensures EpochsOf(ring[Advance(last) := e], Advance(last), k + 1) == EpochsOf(ring, last, k) + [e]
  {
    var c := Advance(last);
    var g := EpochsOf(ring[c := e], c, k + 1);
    forall i | 0 <= i < k ensures g[i] == EpochsOf(ring, last, k)[i] {
      BackFromNext(last, k - 1 - i);
    }
    assert Back(c, 0) == c;
    assert g == EpochsOf(ring, last, k) + [e];
  }

  /** Writing a peer record at the advanced cursor appends it and overwrites none of the others. */
  lemma PeerAppends(ring: seq<Peer>, last: nat, k: nat, p: Peer)
    requires |ring| == MAX_SAMPLES && last < RING && k < MAX_SAMPLES
    ensures PeersOf(ring[Half(Advance(last)) := p], Advance(last), k + 1) == PeersOf(ring, last, k) + [p]
  {
    var c := Advance(last);
    var g := PeersOf(ring[Half(c) := p], c, k + 1);
    forall i | 0 <= i < k ensures g[i] == PeersOf(ring, last, k)[i] {
      BackFromNext(last, k - 1 - i);
    }
    assert Back(c, 0) == c;
    assert g == PeersOf(ring, last, k) + [p];
  }

  /** The last k elements. */
  function Last<T>(s: seq<T>, k: nat): seq<T>
    requires k <= |s|
  {
    s[|s| - k..]
  }

  /** Counting fewer entries drops the oldest. */
  lemma FewerEntries(epochs: seq<Epoch>, peers: seq<Peer>, last: nat, n: nat, runs: nat, m: nat, extra: nat)
    requires |epochs| == RING && |peers| == MAX_SAMPLES && last < RING
    requires runs <= n <= MAX_SAMPLES && m <= n && m + extra <= n + runs && Increasing(EpochsOf(epochs, last, n + runs))
    ensures EpochsOf(epochs, last, m + extra) == Last(EpochsOf(epochs, last, n + runs), m + extra)
    ensures Increasing(EpochsOf(epochs, last, m + extra))
    ensures PeersOf(peers, last, m) == Last(PeersOf(peers, last, n), m)
  {
    hide EpochsOf, PeersOf, Increasing;
    var k := m + extra;
    LastEpochs(epochs, last, n + runs, k);
    LastPeers(peers, last, n, m);
    IncreasingTail(EpochsOf(epochs, last, n + runs), n + runs - k);
  }

  lemma LastPeers(ring: seq<Peer>, last: nat, k: nat, j: nat)
    requires |ring| == MAX_SAMPLES && last < RING && j <= k <= MAX_SAMPLES
    ensures PeersOf(ring, last, j) == Last(PeersOf(ring, last, k), j)
  {
  }

  lemma LastEpochs(ring: seq<Epoch>, last: nat, k: nat, j: nat)
    requires |ring| == RING && last < RING && j <= k <= RING
    ensures EpochsOf(ring, last, j) == Last(EpochsOf(ring, last, k), j)
  {
  }

  /** The i-th sample through the index maps. */
  lemma SampleAt(epochs: seq<Epoch>, peers: seq<Peer>, last: nat, n: nat, i: nat)
    requires |epochs| == RING && |peers| == MAX_SAMPLES && last < RING && i < n <= MAX_SAMPLES
    ensures 0 <= BufIndex(last, n, i) < MAX_SAMPLES && 0 <= RunsIndex(last, n, i) < RING
    ensures BufIndex(last, n, i) == Half(Back(last, n - 1 - i))
    ensures peers[BufIndex(last, n, i)] == PeersOf(peers, last, n)[i]
    ensures epochs[RunsIndex(last, n, i)] == EpochsOf(epochs, last, n)[i]
  {
    IndexMaps(last, n, i);
    hide BufIndex, RunsIndex;
  }

  // ---------- minima ----------

  /** Index of the first least number. */
  function FirstLeast(s: seq<real>): (i: nat)
    requires s != []
    ensures i < |s|
  {
    var n := |s| - 1;
    if n == 0 then 0
    else
      var m := FirstLeast(s[..n]);
      if s[n] < s[m] then n else m
  }

  lemma {:induction false} FirstLeastIsLeast(s: seq<real>)
    requires s != []
    ensures forall j :: 0 <= j < |s| ==> s[FirstLeast(s)] <= s[j]
    ensures forall j :: 0 <= j < FirstLeast(s) ==> s[FirstLeast(s)] < s[j]
  {
    var n := |s| - 1;
    if n > 0 {
      FirstLeastIsLeast(s[..n]);
      forall j | 0 <= j < n ensures s[..n][j] == s[j] {
      }
    }
  }

  lemma FirstLeastOfAppend(s: seq<real>, x: real)
    ensures FirstLeast(s + [x]) == if s == [] then 0 else if x < s[FirstLeast(s)] then |s| else FirstLeast(s)
  {
    assert (s + [x])[..|s|] == s;
  }

  lemma NextLeast(d: seq<real>, i: nat)
    requires 0 < i < |d|
    ensures FirstLeast(d[..i + 1]) == if d[i] < d[FirstLeast(d[..i])] then i else FirstLeast(d[..i])
    ensures FirstLeast(d[..i]) < i
  {
    assert d[..i + 1] == d[..i] + [d[i]];
    FirstLeastOfAppend(d[..i], d[i]);
    hide FirstLeast;
  }

  lemma OnlyLeast(d: seq<real>)
    requires d != []
    ensures FirstLeast(d[..1]) == 0
  {
  }

  ghost function Delays(p: seq<Peer>): (d: seq<real>)
    ensures |d| == |p|
  {
    seq(|p|, i requires 0 <= i < |p| => p[i].delay)
  }

  lemma SlotAt(ring: seq<Peer>, last: nat, n: nat, i: nat)
    requires |ring| == MAX_SAMPLES && last < RING && i < n <= MAX_SAMPLES
    ensures 0 <= BufIndex(last, n, i) < MAX_SAMPLES && BufIndex(last, n, i) == Half(Back(last, n - 1 - i))
    ensures ring[BufIndex(last, n, i)].delay == Delays(PeersOf(ring, last, n))[i]
  {
    IndexMaps(last, n, i);
    hide BufIndex, RunsIndex;
  }

  /** Slot of the first live sample with the least delay. */
  ghost function LeastSlot(p: seq<Peer>, last: nat): nat
    requires p != [] && |p| <= MAX_SAMPLES && last < RING
  {
    Half(Back(last, |p| - 1 - FirstLeast(Delays(p))))
  }

  lemma LeastSlotHolds(ring: seq<Peer>, last: nat, n: nat)
    requires |ring| == MAX_SAMPLES && last < RING && 0 < n <= MAX_SAMPLES
    ensures var p := PeersOf(ring, last, n);
            && LeastSlot(p, last) < MAX_SAMPLES
            && ring[LeastSlot(p, last)].delay == Delays(p)[FirstLeast(Delays(p))]
            && (n < MAX_SAMPLES ==> LeastSlot(p, last) != Half(Advance(last)))
  {
    var p := PeersOf(ring, last, n);
    var i := FirstLeast(Delays(p));
    hide FirstLeast;
    assert p[i] == ring[Half(Back(last, n - 1 - i))];
    if n < MAX_SAMPLES {
      BackFromNext(last, n - 1 - i);
    }
  }

  lemma LeastSlotAppends(ring: seq<Peer>, last: nat, n: nat, q: Peer)
    requires |ring| == MAX_SAMPLES && last < RING && n < MAX_SAMPLES
    ensures var p := PeersOf(ring, last, n);
            LeastSlot(p + [q], Advance(last)) ==
              if n == 0 || q.delay < ring[LeastSlot(p, last)].delay then Half(Advance(last)) else LeastSlot(p, last)
  {
    var p, c := PeersOf(ring, last, n), Advance(last);
    assert Delays(p + [q]) == Delays(p) + [q.delay];
    FirstLeastOfAppend(Delays(p), q.delay);
    if n > 0 {
      LeastSlotHolds(ring, last, n);
      BackFromNext(last, n - 1 - FirstLeast(Delays(p)));
    }
    hide FirstLeast;
    assert Back(c, 0) == c;
  }

  // ---------- time order ----------

  /** Each sample is newer than the one before. */
  predicate Increasing(e: seq<Epoch>) {
    |e| < 2 || (e[|e| - 2].time < e[|e| - 1].time && Increasing(e[..|e| - 1]))
  }

  lemma {:induction false} IncreasingMeans(e: seq<Epoch>, i: nat, j: nat)
    requires Increasing(e) && i < j < |e|
    ensures e[i].time < e[j].time
  {
    var n := |e| - 1;
    if j < n {
      IncreasingMeans(e[..n], i, j);
    } else if i < n - 1 {
      IncreasingMeans(e[..n], i, n - 1);
    }
  }

  lemma {:induction false} IncreasingTail(e: seq<Epoch>, k: nat)
    requires Increasing(e) && k <= |e|
    ensures Increasing(e[k..])
  {
    if |e| >= 2 && k < |e| {
      IncreasingTail(e[..|e| - 1], k);
      assert e[k..][..|e| - 1 - k] == e[..|e| - 1][k..];
    }
  }

  lemma IncreasingAppend(e: seq<Epoch>, x: Epoch)
    requires Increasing(e) && (e != [] ==> e[|e| - 1].time < x.time)
    ensures Increasing(e + [x])
  {
    assert (e + [x])[..|e|] == e;
  }

  // ---------- the best sample ----------

  /** Root distance of a sample some time after it was taken. */
  function RootDistance(p: Peer, elapsed: real, skew: real): real {
    p.rootDispersion + elapsed * skew + 0.5 * Abs(p.rootDelay)
  }

  ghost function Distances(e: seq<Epoch>, p: seq<Peer>, newest: real, skew: real): (d: seq<real>)
    requires |e| == |p|
    ensures |d| == |p|
  {
    seq(|p|, i requires 0 <= i < |p| => RootDistance(p[i], newest - e[i].time, skew))
  }

  /** The running minimum of the loop over the root distances. */
  ghost predicate BestSoFar(d: seq<real>, i: nat, best: int, bestDistance: real) {
    && i <= |d| && (i == 0 ==> best == -1)
    && (i > 0 ==> 0 <= best < i && best == FirstLeast(d[..i]) && bestDistance == d[best])
  }

  lemma NoBest(d: seq<real>)
    ensures BestSoFar(d, 0, -1, 0.0)
  {
  }

  lemma NextBest(d: seq<real>, i: nat, best: int, bestDistance: real)
    requires BestSoFar(d, i, best, bestDistance) && i < |d|
    ensures if best < 0 || d[i] < bestDistance then BestSoFar(d, i + 1, i, d[i]) else BestSoFar(d, i + 1, best, bestDistance)
  {
    if i == 0 {
      OnlyLeast(d);
    } else {
      NextLeast(d, i);
    }
  }

  lemma BestOfAll(d: seq<real>, best: int, bestDistance: real)
    requires BestSoFar(d, |d|, best, bestDistance) && d != []
    ensures best >= 0 && best == FirstLeast(d)
  {
    assert d[..|d|] == d;
  }

  // ---------- the register ----------

  lemma LastOfLast<T>(s: seq<T>, a: nat, b: nat)
    requires b <= a <= |s|
    ensures Last(Last(s, a), b) == Last(s, b)
  {
  }

  lemma LastAll<T>(s: seq<T>)
    ensures Last(s, |s|) == s
  {
  }

  /** The samples in the live part, and those kept for the runs only, after one of this time. */
  function LiveAfter(n: nat, back: bool): nat {
    1 + if back then 0 else Least(n, MAX_SAMPLES - 1)
  }

  function RunsAfter(n: nat, runs: nat, back: bool): nat {
    if back then 0 else if n == MAX_SAMPLES then Least(runs + 1, MAX_SAMPLES - 1) else runs
  }

  class Stats {
    const epochs: array<Epoch>
    const peers: array<Peer>
    var nSamples: nat
    var runsSamples: nat
    var lastSample: nat
    var minDelaySample: nat
    var bestSingleSample: nat

    predicate Sized()
      reads this
    {
      && epochs.Length == RING && peers.Length == MAX_SAMPLES
      && lastSample < RING && nSamples <= MAX_SAMPLES && runsSamples <= nSamples
    }

    /** Epochs of the live samples and of the older ones kept for the runs test. */
    ghost function History(): seq<Epoch>
      requires Sized()
      reads this, epochs
    {
      EpochsOf(epochs[..], lastSample, nSamples + runsSamples)
    }

    /** Epochs of the live samples. */
    ghost function LiveEpochs(): (e: seq<Epoch>)
      requires Sized()
      reads this, epochs
      ensures |e| == nSamples
    {
      EpochsOf(epochs[..], lastSample, nSamples)
    }

    /** The live samples are the newest of the history. */
    lemma LiveIsNewest()
      requires Sized()
      ensures LiveEpochs() == Last(History(), nSamples)
    {
      LastEpochs(epochs[..], lastSample, nSamples + runsSamples, nSamples);
    }

    /** Peer records of the live samples. */
    ghost function Live(): seq<Peer>
      requires Sized()
      reads this, peers
    {
      PeersOf(peers[..], lastSample, nSamples)
    }

    ghost predicate Valid()
      reads this, epochs, peers
    {
      && Sized() && Increasing(History())
      && minDelaySample < MAX_SAMPLES
      && (nSamples > 0 ==> minDelaySample == LeastSlot(Live(), lastSample))
    }

    /** SST_CreateInstance. */
    constructor ()
      ensures Valid() && fresh(epochs) && fresh(peers) && History() == [] && Live() == []
    {
      epochs := new Epoch[RING](i => Epoch(0.0, 0.0));
      peers := new Peer[MAX_SAMPLES](i => Peer(0.0, 0.0, 0.0, 0.0, 0.0, 0));
      nSamples, runsSamples, lastSample, minDelaySample, bestSingleSample := 0, 0, 0, 0, 0;
    }

    /** find_min_delay_sample. */
    method FindMinDelaySample()
      requires Sized()
      modifies `minDelaySample
      ensures minDelaySample < MAX_SAMPLES
      ensures nSamples > 0 ==> minDelaySample == LeastSlot(Live(), lastSample)
    {
      FirstSlot(lastSample, nSamples);
      hide BufIndex, LeastSlot, PeersOf;
      minDelaySample := BufIndex(lastSample, nSamples, 0);
      if nSamples > 0 {
        ScanDelays();
      }
    }

    /** The loop of find_min_delay_sample. */
    method ScanDelays()
      requires Sized() && nSamples > 0 && minDelaySample == BufIndex(lastSample, nSamples, 0)
      modifies `minDelaySample
      ensures minDelaySample < MAX_SAMPLES && minDelaySample == LeastSlot(Live(), lastSample)
    {
      hide BufIndex, RunsIndex, EpochsOf, PeersOf, Half, Back, FirstLeast, Delays;
      ghost var ring, d, least := peers[..], Delays(Live()), 0;
      SlotAt(ring, lastSample, nSamples, 0);
      OnlyLeast(d);
      for i := 1 to nSamples
        invariant minDelaySample < MAX_SAMPLES && 0 <= least < i && least == FirstLeast(d[..i])
        invariant minDelaySample == Half(Back(lastSample, nSamples - 1 - least))
        invariant peers[minDelaySample].delay == d[least]
      {
        SlotAt(ring, lastSample, nSamples, i);
        NextLeast(d, i);
        var index := BufIndex(lastSample, nSamples, i);
        if peers[index].delay < peers[minDelaySample].delay {
          minDelaySample := index;
          least := i;
        }
      }
      assert d[..nSamples] == d;
    }

    /** prune_register: the oldest samples leave the live part, and stay in the history while it is no
        more than twice as long. */
    method PruneRegister(newOldest: nat)
      requires Valid() && newOldest <= nSamples
      modifies `nSamples, `runsSamples, `minDelaySample
      ensures Valid()
      ensures nSamples == old(nSamples) - newOldest && runsSamples == Least(old(runsSamples) + newOldest, nSamples)
      ensures Live() == Last(old(Live()), nSamples)
      ensures History() == Last(old(History()), nSamples + runsSamples)
    {
      hide EpochsOf, PeersOf, Increasing, LeastSlot, Last, Delays, FirstLeast, Half, Back;
      ghost var n, runs := nSamples, runsSamples;
      if newOldest > 0 {
        Drop(newOldest);
      }
      FewerEntries(epochs[..], peers[..], lastSample, n, runs, nSamples, runsSamples);
    }

    /** The counters of prune_register, and the new minimum. */
    method Drop(newOldest: nat)
      requires Sized() && newOldest <= nSamples
      modifies `nSamples, `runsSamples, `minDelaySample
      ensures Sized() && minDelaySample < MAX_SAMPLES
      ensures nSamples == old(nSamples) - newOldest && runsSamples == Least(old(runsSamples) + newOldest, nSamples)
      ensures nSamples > 0 ==> minDelaySample == LeastSlot(Live(), lastSample)
    {
      hide EpochsOf, PeersOf, LeastSlot;
      nSamples := nSamples - newOldest;
      runsSamples := runsSamples + newOldest;
      if runsSamples > RunsLimit(nSamples) {
        runsSamples := RunsLimit(nSamples);
      }
      assert nSamples + runsSamples <= RING;
      FindMinDelaySample();
    }

    /** The part of SST_AccumulateSample that stores the sample. */
    method Append(e: Epoch, p: Peer)
      requires Valid() && nSamples < MAX_SAMPLES
      requires nSamples > 0 ==> epochs[lastSample].time < e.time
      modifies this, epochs, peers
      ensures Valid() && History() == old(History()) + [e] && Live() == old(Live()) + [p]
      ensures nSamples == old(nSamples) + 1 && runsSamples == old(runsSamples)
    {
      ghost var oldEpochs, oldPeers, last, n, slot := epochs[..], peers[..], lastSample, nSamples, minDelaySample;
      hide EpochsOf, PeersOf, Half, Back, Advance, Increasing, LeastSlot, FirstLeast, Delays;
      LeastIsElsewhere(oldPeers, last, n);
      var m := Write(e, p);
      minDelaySample := if nSamples == 0 || peers[m].delay < peers[minDelaySample].delay then m else minDelaySample;
      nSamples := nSamples + 1;
      AppendKeeps(oldEpochs, oldPeers, last, n, runsSamples, slot, e, p,
                  epochs[..], peers[..], lastSample, m, nSamples, minDelaySample);
    }

    /** Move the cursor and fill the slots it names in both rings. */
    method Write(e: Epoch, p: Peer) returns (m: nat)
      requires Sized()
      modifies `lastSample, epochs, peers
      ensures lastSample == Advance(old(lastSample)) && m == Half(lastSample)
      ensures epochs[..] == old(epochs[..])[lastSample := e] && peers[..] == old(peers[..])[m := p]
    {
      CursorStep(lastSample);
      hide Half, Advance;
      lastSample := (lastSample + 1) % RING;
      m := lastSample % MAX_SAMPLES;
      epochs[lastSample] := e;
      peers[m] := p;
    }

    /** The part of SST_AccumulateSample that makes room in a full register. */
    method MakeRoom()
      requires Valid()
      modifies `nSamples, `runsSamples, `minDelaySample
      ensures Valid() && nSamples + 1 == LiveAfter(old(nSamples), false)
      ensures runsSamples == RunsAfter(old(nSamples), old(runsSamples), false)
      ensures Live() == Last(old(Live()), nSamples) && History() == Last(old(History()), nSamples + runsSamples)
    {
      hide EpochsOf, PeersOf, Increasing, LeastSlot, Last;
      LastAll(Live());
      LastAll(History());
      if nSamples == MAX_SAMPLES {
        PruneRegister(1);
      }
    }

    /** The part of SST_AccumulateSample that discards all samples when time went back. */
    method DiscardUnlessNewer(time: real) returns (back: bool)
      requires Valid()
      modifies `nSamples, `runsSamples, `minDelaySample
      ensures Valid() && back == (old(nSamples) > 0 && epochs[lastSample].time >= time)
      ensures nSamples == (if back then 0 else old(nSamples)) && runsSamples == (if back then 0 else old(runsSamples))
      ensures Live() == Last(old(Live()), nSamples) && History() == Last(old(History()), nSamples + runsSamples)
    {
      hide EpochsOf, PeersOf, Increasing, LeastSlot, Last;
      LastAll(Live());
      LastAll(History());
      back := nSamples > 0 && epochs[lastSample].time >= time;
      if back {
        PruneRegister(nSamples);
      }
    }

    /** SST_AccumulateSample: the sample joins the live ones and the history. The oldest leaves a full
        register, and a sample that is not newer than the last discards everything before it. */
    method AccumulateSample(e: Epoch, p: Peer)
      requires Valid()
      modifies this, epochs, peers
      ensures Valid()
      ensures var back := old(nSamples) > 0 && old(epochs[lastSample].time) >= e.time;
              nSamples == LiveAfter(old(nSamples), back) && runsSamples == RunsAfter(old(nSamples), old(runsSamples), back)
      ensures Live() == Last(old(Live()), nSamples - 1) + [p.(delay := Abs(p.delay))]
      ensures History() == Last(old(History()), nSamples - 1 + runsSamples) + [e]
    {
      hide EpochsOf, PeersOf, Increasing, LeastSlot, Last;
      ghost var live, history := Live(), History();
      MakeRoom();
      ghost var n, runs := nSamples, runsSamples;
      var back := DiscardUnlessNewer(e.time);
      LastOfLast(live, n, nSamples);
      LastOfLast(history, n + runs, nSamples + runsSamples);
      Append(e, p.(delay := Abs(p.delay)));
    }

    /** find_best_sample_index: the first live sample of least root distance; no elapsed time is negative. */
    method FindBestSampleIndex(skew: real)
      requires Valid()
      modifies `bestSingleSample
      ensures nSamples == 0 ==> bestSingleSample == old(bestSingleSample)
      ensures nSamples > 0 ==>
                bestSingleSample == FirstLeast(Distances(LiveEpochs(), Live(), LiveEpochs()[nSamples - 1].time, skew))
    {
      if nSamples == 0 {
        return;
      }
      hide EpochsOf, PeersOf, LeastSlot, Increasing, FirstLeast, Distances;
      NewestAt(epochs[..], lastSample, nSamples);
      bestSingleSample := ScanDistances(epochs[lastSample].time, skew);
    }

    lemma ValidIsSized()
      requires Valid()
      ensures Sized() && |Live()| == nSamples
    {
    }

    /** The loop of find_best_sample_index. */
    method ScanDistances(newest: real, skew: real) returns (best: nat)
      requires Valid() && nSamples > 0 && newest == LiveEpochs()[nSamples - 1].time
      ensures best == FirstLeast(Distances(LiveEpochs(), Live(), newest, skew))
    {
      hide Valid, LiveEpochs, Live, FirstLeast, Distances, BestSoFar;
      ValidIsSized();
      ghost var d := Distances(LiveEpochs(), Live(), newest, skew);
      var index, bestDistance := -1, 0.0;
      NoBest(d);
      for i := 0 to nSamples
        invariant BestSoFar(d, i, index, bestDistance)
      {
        NextBest(d, i, index, bestDistance);
        var distance := DistanceAt(i, newest, skew);
        if index < 0 || distance < bestDistance {
          bestDistance := distance;
          index := i;
        }
      }
      BestOfAll(d, index, bestDistance);
      best := index;
    }

    /** The root distance of the i-th live sample at the time of the newest. */
    method DistanceAt(i: nat, newest: real, skew: real) returns (distance: real)
      requires Valid() && i < nSamples && newest == LiveEpochs()[nSamples - 1].time
      ensures distance == Distances(LiveEpochs(), Live(), newest, skew)[i]
    {
      LiveIncreasing(epochs[..], lastSample, nSamples, runsSamples, i);
      SampleAt(epochs[..], peers[..], lastSample, nSamples, i);
      hide EpochsOf, PeersOf, BufIndex, RunsIndex, LeastSlot, Increasing, RootDistance;
      var j := BufIndex(lastSample, nSamples, i);
      var elapsed := newest - epochs[RunsIndex(lastSample, nSamples, i)].time;
      assert elapsed >= 0.0;
      distance := RootDistance(peers[j], elapsed, skew);
    }
  }

  lemma LiveIncreasing(ring: seq<Epoch>, last: nat, n: nat, runs: nat, i: nat)
    requires |ring| == RING && last < RING && runs <= n <= MAX_SAMPLES && i < n
    requires Increasing(EpochsOf(ring, last, n + runs))
    ensures EpochsOf(ring, last, n)[i].time <= EpochsOf(ring, last, n)[n - 1].time
  {
    LastEpochs(ring, last, n + runs, n);
    if i < n - 1 {
      IncreasingMeans(EpochsOf(ring, last, n + runs), runs + i, runs + n - 1);
    }
  }

  lemma LeastIsElsewhere(ring: seq<Peer>, last: nat, n: nat)
    requires |ring| == MAX_SAMPLES && last < RING && n < MAX_SAMPLES
    ensures n > 0 ==> LeastSlot(PeersOf(ring, last, n), last) < MAX_SAMPLES
    ensures n > 0 ==> LeastSlot(PeersOf(ring, last, n), last) != Half(Advance(last))
  {
    if n > 0 {
      LeastSlotHolds(ring, last, n);
    }
  }

  /** Storing a newer sample in the next slots. */
  lemma AppendKeeps(epochs: seq<Epoch>, peers: seq<Peer>, last: nat, n: nat, runs: nat, slot: nat, e: Epoch, p: Peer,
                    epochs': seq<Epoch>, peers': seq<Peer>, c: nat, m: nat, n': nat, slot': nat)
    requires |epochs| == RING && |peers| == MAX_SAMPLES && last < RING && runs <= n < MAX_SAMPLES
    requires Increasing(EpochsOf(epochs, last, n + runs)) && (n > 0 ==> epochs[last].time < e.time)
    requires n > 0 ==> slot == LeastSlot(PeersOf(peers, last, n), last) && slot < MAX_SAMPLES
    requires c == Advance(last) && m == Half(c) && n' == n + 1
    requires epochs' == epochs[c := e] && peers' == peers[m := p]
    requires slot' == if n == 0 || p.delay < peers[slot].delay then m else slot
    ensures EpochsOf(epochs', c, n' + runs) == EpochsOf(epochs, last, n + runs) + [e]
    ensures Increasing(EpochsOf(epochs', c, n' + runs))
    ensures PeersOf(peers', c, n') == PeersOf(peers, last, n) + [p]
    ensures slot' < MAX_SAMPLES && slot' == LeastSlot(PeersOf(peers', c, n'), c)
  {
    assert n' + runs == n + runs + 1;
    EpochAppends(epochs, last, n + runs, e);
    PeerAppends(peers, last, n, p);
    if n > 0 {
      NewestAt(epochs, last, n + runs);
    }
    IncreasingAppend(EpochsOf(epochs, last, n + runs), e);
    LeastSlotAppends(peers, last, n, p);
    hide EpochsOf, PeersOf, LeastSlot, Increasing;
  }

  lemma FirstSlot(last: nat, n: nat)
    requires last < RING && n <= MAX_SAMPLES
    ensures 0 <= BufIndex(last, n, 0) < MAX_SAMPLES
  {
  }

  lemma NewestAt(ring: seq<Epoch>, last: nat, k: nat)
    requires |ring| == RING && last < RING && 0 < k <= RING
    ensures ring[last] == EpochsOf(ring, last, k)[k - 1]
  {
    assert Back(last, 0) == last;
  }
}
