/** The mode, timer and burst machine of one NTP source (ntp_core.c) over the shared timer queue. */
module NtpAssociation {
  import opened Numbers
  import opened Scheduler

  const SAMPLING: nat := 1
  const INITIAL_DELAY := 0.2
  const SAMPLING_SEPARATION := 0.2
  const SAMPLING_RANDOMNESS := 0.02
  const BURST_INTERVAL := 2.0
  const BURST_TIMEOUT := 8.0
  const WARM_UP_DELAY := 4.0

  datatype Mode = Client | Active

  datatype OpMode = Offline | Online | BurstWasOffline | BurstWasOnline

  /** The part of an instance record that the machine uses. */
  datatype Instance = Instance(
    mode: Mode, opmode: OpMode, timerRunning: bool, timeoutId: nat, autoOffline: bool,
    localPoll: int, remotePoll: int, presendMinpoll: int, presendDone: bool,
    minpoll: int, maxpoll: int, pollScore: real, txCount: nat, goodToGo: int, totalToGo: int)

  /** Configuration of a new source. */
  datatype Params = Params(mode: Mode, minpoll: int, maxpoll: int, presendMinpoll: int,
                           online: bool, iburst: bool, autoOffline: bool)

  /** What the packet tests say of a received packet, and the change of polling interval they lead to. */
  datatype Packet = Packet(validData: bool, validHeader: bool, goodData: bool, validKod: bool, kodRate: bool,
                           remotePoll: int, pollAdj: real)

  /** Reading of the raw clock and the random draw of one handler call. */
  datatype Env = Env(now: real, draw: nat)

  predicate InBurst(m: OpMode) { m.BurstWasOffline? || m.BurstWasOnline? }

  // ---------- polling interval ----------

  /** adjust_poll: whole units of the score move into the interval, which is then clamped. */
  function AdjustPoll(i: Instance, adj: real): Instance {
    var s0 := i.pollScore + adj;
    var (p1, s1) := if s0 >= 1.0 then (i.localPoll + Truncate(s0), s0 - Truncate(s0) as real) else (i.localPoll, s0);
    var (p2, s2) := if s1 < 0.0 then (p1 + Truncate(s1 - 1.0), s1 - Truncate(s1 - 1.0) as real) else (p1, s1);
    if p2 < i.minpoll then i.(localPoll := i.minpoll, pollScore := 0.0)
    else if p2 > i.maxpoll then i.(localPoll := i.maxpoll, pollScore := 1.0)
    else i.(localPoll := p2, pollScore := s2)
  }

  /** The interval stays in its range and the score in [0, 1]; off the ends of the range, interval and
      score together change by exactly the adjustment. */
  lemma AdjustPollIsExact(i: Instance, adj: real)
    requires i.minpoll <= i.maxpoll
    ensures var r := AdjustPoll(i, adj);
            && r.minpoll <= r.localPoll <= r.maxpoll && 0.0 <= r.pollScore <= 1.0
            && r == i.(localPoll := r.localPoll, pollScore := r.pollScore)
            && (i.minpoll < r.localPoll < i.maxpoll ==>
                  r.localPoll as real + r.pollScore == i.localPoll as real + i.pollScore + adj)
  {
  }

  function Clamp(p: int, lo: int, hi: int): int {
    var q := if p < lo then lo else p;
    if q > hi then hi else q
  }

  // ---------- the handlers as functions of the record and the queue ----------

  /** A record together with the timer queue. */
  datatype Pair = Pair(inst: Instance, timers: State)

  ghost predicate Fine(p: Pair) { Sound(p.timers) }

  /** Queue a transmission. */
  ghost function Start(p: Pair, task: int, delay: real, env: Env): Pair
    requires Fine(p)
  {
    Pair(p.inst.(timerRunning := true, timeoutId := p.timers.nextId),
         Step(p.timers, AddClass(env.now, Stretched(delay, SAMPLING_RANDOMNESS, env.draw),
                                 Stretched(SAMPLING_SEPARATION, SAMPLING_RANDOMNESS, env.draw), SAMPLING, task)))
  }

  /** Cancel the queued transmission. */
  ghost function Cancel(p: Pair): Pair
    requires Fine(p)
  {
    p.(timers := Step(p.timers, Remove(p.inst.timeoutId)))
  }

  ghost function TakenOffline(p: Pair): Pair
    requires Fine(p)
  {
    match p.inst.opmode
    case Online =>
      if p.inst.timerRunning
      then Cancel(p).(inst := p.inst.(timerRunning := false, opmode := Offline))
      else p
    case BurstWasOnline => p.(inst := p.inst.(opmode := BurstWasOffline))
    case _ => p
  }

  ghost function TakenOnline(p: Pair, task: int, env: Env): Pair
    requires Fine(p)
  {
    match p.inst.opmode
    case Offline =>
      if !p.inst.timerRunning
      then Start(p.(inst := p.inst.(txCount := 0, localPoll := p.inst.minpoll, pollScore := 0.5, opmode := Online)),
                 task, INITIAL_DELAY, env)
      else p
    case BurstWasOffline => p.(inst := p.inst.(opmode := BurstWasOnline))
    case _ => p
  }

  ghost function BurstStarted(p: Pair, task: int, good: int, total: int, env: Env): Pair
    requires Fine(p)
  {
    if p.inst.mode.Client? && !InBurst(p.inst.opmode) then
      var i := p.inst.(opmode := if p.inst.opmode.Online? then BurstWasOnline else BurstWasOffline,
                       goodToGo := good, totalToGo := total);
      var q := if i.timerRunning then Cancel(p) else p;
      Start(q.(inst := i), task, INITIAL_DELAY, env)
    else p
  }

  /** transmit_timeout warms the link up first. */
  predicate Presends(i: Instance) {
    i.presendMinpoll > 0 && i.presendMinpoll <= i.localPoll && !i.presendDone
  }

  /** A packet went unanswered: the polling rate backs off and, after three, the source may go offline. */
  ghost function BackedOff(p: Pair, isSync: bool): Pair
    requires Fine(p)
  {
    var i := p.inst.(presendDone := false, txCount := p.inst.txCount + 1);
    if i.txCount < 2 then p.(inst := i)
    else
      var q := p.(inst := AdjustPoll(i, if isSync then 0.1 else 0.25));
      if q.inst.autoOffline && q.inst.txCount >= 3 then TakenOffline(q) else q
  }

  /** One more packet of a burst has gone out. */
  function Counted(i: Instance): Instance {
    if !InBurst(i.opmode) then i
    else if i.totalToGo - 1 <= 0
    then i.(totalToGo := i.totalToGo - 1, opmode := if i.opmode.BurstWasOffline? then Offline else Online)
    else i.(totalToGo := i.totalToGo - 1)
  }

  ghost function Requeued(p: Pair, task: int, env: Env): Pair
    requires Fine(p)
  {
    match p.inst.opmode
    case Offline => p.(inst := p.inst.(timerRunning := false))
    case Online => Start(p, task, Pow2(p.inst.localPoll) as real, env)
    case _ => Start(p, task, BURST_TIMEOUT, env)
  }

  ghost function Transmitted(p: Pair, task: int, isSync: bool, env: Env): Pair
    requires Fine(p)
  {
    if Presends(p.inst) then Start(p.(inst := p.inst.(presendDone := true)), task, WARM_UP_DELAY, env)
    else
      var q := BackedOff(p, isSync);
      Requeued(q.(inst := Counted(q.inst)), task, env)
  }

  /** Whether a packet leaves. */
  ghost predicate Sends(p: Pair, isSync: bool)
    requires Fine(p)
  {
    !Presends(p.inst) && !BackedOff(p, isSync).inst.opmode.Offline?
  }

  /** Bookkeeping of a received packet before the mode is looked at. */
  function Noted(i: Instance, m: Packet): Instance {
    var i0 := i.(remotePoll := m.remotePoll);
    var i1 := if m.validHeader && m.validData then i0.(txCount := 0) else i0;
    if m.validHeader && m.goodData then AdjustPoll(i1, m.pollAdj)
    else if m.validHeader && m.validData then AdjustPoll(i1, 0.1)
    else i1
  }

  predicate Kissed(m: Packet) { m.kodRate && m.validKod }

  /** A kiss-of-death slows polling down and stops a burst. */
  function KissOfDeath(i: Instance, m: Packet): Instance {
    if !Kissed(m) then i
    else
      var j := if i.remotePoll > i.minpoll
               then i.(minpoll := i.remotePoll,
                       maxpoll := if i.remotePoll > i.maxpoll then i.remotePoll else i.maxpoll,
                       localPoll := if i.remotePoll > i.localPoll then i.remotePoll else i.localPoll)
               else i;
      if InBurst(j.opmode) then j.(goodToGo := 0) else j
  }

  /** One more answer of a burst has come in. */
  ghost function Answered(p: Pair, m: Packet): Pair
    requires Fine(p)
  {
    if !InBurst(p.inst.opmode) then p
    else
      var i := if m.validData then p.inst.(goodToGo := p.inst.goodToGo - 1) else p.inst;
      if i.goodToGo > 0 then p.(inst := i)
      else if i.opmode.BurstWasOnline? then p.(inst := i.(opmode := Online))
      else (if i.timerRunning then Cancel(p) else p).(inst := i.(opmode := Offline, timerRunning := false))
  }

  function NextDelay(i: Instance, m: Packet): real {
    var base := if InBurst(i.opmode) then BURST_INTERVAL
                else if i.mode.Client? then Pow2(i.localPoll) as real
                else (Pow2(Clamp(Least(i.localPoll, i.remotePoll), i.minpoll, i.maxpoll) - 1) as real);
    if Kissed(m) then base + 4.0 * (Pow2(i.minpoll) as real) else base
  }

  ghost function Received(p: Pair, m: Packet, task: int, env: Env): Pair
    requires Fine(p)
  {
    var q := Answered(p.(inst := KissOfDeath(Noted(p.inst, m), m)), m);
    if q.inst.opmode.Offline? then q
    else
      var r := Start(Cancel(q), task, NextDelay(q.inst, m), env);
      r.(inst := r.inst.(timerRunning := q.inst.timerRunning))
  }

  ghost function Created(params: Params, timers: State, task: int, env: Env): Pair
    requires Sound(timers)
  {
    var i := Instance(params.mode, Offline, false, 0, false, 0, 0, params.presendMinpoll, false,
                      params.minpoll, params.maxpoll, 0.0, 0, 0, 0);
    var p := if params.online then
               var q := Start(Pair(i, timers), task, INITIAL_DELAY, env); q.(inst := q.inst.(opmode := Online))
             else Pair(i, timers);
    var q := if params.iburst then BurstStarted(p, task, 4, 8, env) else p;
    q.(inst := q.inst.(autoOffline := params.autoOffline, localPoll := params.minpoll))
  }

  ghost function Destroyed(p: Pair): State
    requires Fine(p)
  {
    if p.inst.timerRunning then Cancel(p).timers else p.timers
  }

  // ---------- who owns which queue entries ----------

  /** Ids of the transmissions queued for a source. */
  ghost function Mine(q: Queue, task: int): set<nat> {
    set i | 0 <= i < |q| && q[i].cls == SAMPLING && q[i].task == task :: q[i].id
  }

  ghost function Ids(q: Queue): set<nat> { set i | 0 <= i < |q| :: q[i].id }

  /** A source has exactly one queued transmission, under the id it remembers, unless it is offline. */
  ghost predicate Owns(p: Pair, task: int) {
    && Mine(p.timers.queue, task) == (if p.inst.opmode.Offline? then {} else {p.inst.timeoutId})
    && (p.inst.timerRunning <==> !p.inst.opmode.Offline?)
  }

  /** Nothing changes for the other sources. */
  ghost predicate OthersKept(s: State, t: State, task: int) {
    forall other: int :: other != task ==> Mine(t.queue, other) == Mine(s.queue, other)
  }

  lemma MineOfInsert(q: Queue, e: Entry, task: int)
    ensures Mine(Insert(q, e), task) ==
              Mine(q, task) + if e.cls == SAMPLING && e.task == task then {e.id} else {}
  {
    var p, r := Position(q, e.tv), Insert(q, e);
    assert r == q[..p] + [e] + q[p..];
    hide Position, Insert;
    assert r[p] == e;
    forall id | id in Mine(q, task) ensures id in Mine(r, task) {
      var i :| 0 <= i < |q| && q[i].cls == SAMPLING && q[i].task == task && q[i].id == id;
      assert r[if i < p then i else i + 1] == q[i];
    }
    forall i | 0 <= i < |r| && i != p ensures r[i] == q[if i < p then i else i - 1] {
    }
  }

  lemma MineOfTakeOut(q: Queue, n: nat, task: int)
    requires UniqueIds(q) && n < |q|
    ensures Mine(q[..n] + q[n + 1..], task) == Mine(q, task) - {q[n].id}
  {
    var r := q[..n] + q[n + 1..];
    forall i | 0 <= i < |q| && i != n ensures r[if i < n then i else i - 1] == q[i] && q[i].id != q[n].id {
    }
    forall i | 0 <= i < |r| ensures r[i] == q[if i < n then i else i + 1] {
    }
  }

  lemma IdsOfMine(q: Queue, task: int)
    ensures Mine(q, task) <= Ids(q)
  {
  }

  /** An entry belongs to one source only. */
  lemma MineIsDisjoint(q: Queue, task: int, other: int)
    requires UniqueIds(q) && task != other
    ensures Mine(q, task) !! Mine(q, other)
  {
  }

  lemma StartOwns(p: Pair, task: int, delay: real, env: Env)
    requires Fine(p) && Mine(p.timers.queue, task) == {}
    ensures var r := Start(p, task, delay, env);
            && Fine(r) && Mine(r.timers.queue, task) == {r.inst.timeoutId} && r.inst.timerRunning
            && OthersKept(p.timers, r.timers, task)
            && r.inst == p.inst.(timerRunning := true, timeoutId := r.inst.timeoutId)
  {
    var s, now := p.timers, env.now;
    var d := Stretched(delay, SAMPLING_RANDOMNESS, env.draw);
    var sep := Stretched(SAMPLING_SEPARATION, SAMPLING_RANDOMNESS, env.draw);
    var e := Entry(now + ClassDelay(s, now, d, sep, SAMPLING), s.nextId, SAMPLING, task);
    assert Start(p, task, delay, env).timers.queue == Insert(s.queue, e);
    hide Insert, Mine, Scan, Stretched, Ordered, UniqueIds, IdsBelow;
    MineOfInsert(s.queue, e, task);
    forall other: int | other != task ensures Mine(Insert(s.queue, e), other) == Mine(s.queue, other) {
      MineOfInsert(s.queue, e, other);
    }
  }

  /** Cancelling removes the entry the source remembers, or nothing when that entry is gone. */
  lemma CancelFrees(p: Pair, task: int)
    requires Fine(p)
    requires Mine(p.timers.queue, task) == {p.inst.timeoutId}
             || (Mine(p.timers.queue, task) == {} && p.inst.timeoutId !in Ids(p.timers.queue))
    ensures Fine(Cancel(p)) && Mine(Cancel(p).timers.queue, task) == {}
    ensures OthersKept(p.timers, Cancel(p).timers, task)
  {
    var q, id := p.timers.queue, p.inst.timeoutId;
    var n := IndexOf(q, id);
    if n < |q| {
      assert q[n].id in Ids(q);
      MineOfTakeOut(q, n, task);
      forall other: int | other != task ensures Mine(Without(q, id), other) == Mine(q, other) {
        MineOfTakeOut(q, n, other);
        MineIsDisjoint(q, task, other);
      }
    } else {
      IdsOfMine(q, task);
      assert id !in Ids(q);
    }
  }

  lemma OthersTransitive(s: State, t: State, u: State, task: int)
    requires OthersKept(s, t, task) && OthersKept(t, u, task)
    ensures OthersKept(s, u, task)
  {
    forall other: int | other != task ensures Mine(u.queue, other) == Mine(s.queue, other) {
      assert Mine(t.queue, other) == Mine(s.queue, other);
    }
  }

  lemma OthersReflexive(s: State, task: int)
    ensures OthersKept(s, s, task)
  {
  }

  /** The state in which the scheduler calls transmit_timeout: the entry that fired is no longer queued. */
  ghost predicate Fired(p: Pair, task: int) {
    && Fine(p) && !p.inst.opmode.Offline? && p.inst.timerRunning
    && Mine(p.timers.queue, task) == {} && p.inst.timeoutId !in Ids(p.timers.queue)
  }

  lemma BackedOffIsFree(p: Pair, task: int, isSync: bool)
    requires Fired(p, task)
    ensures var q := BackedOff(p, isSync);
            Fine(q) && Mine(q.timers.queue, task) == {} && OthersKept(p.timers, q.timers, task)
  {
    hide Mine, Ids, AdjustPoll, Step, OthersKept;
    OthersReflexive(p.timers, task);
    var i := p.inst.(presendDone := false, txCount := p.inst.txCount + 1);
    var q := p.(inst := AdjustPoll(i, if isSync then 0.1 else 0.25));
    AdjustKeepsTimer(i, if isSync then 0.1 else 0.25);
    if i.txCount >= 2 && q.inst.autoOffline && q.inst.txCount >= 3 {
      CancelFrees(q, task);
    }
  }

  lemma AdjustKeepsTimer(i: Instance, adj: real)
    ensures var r := AdjustPoll(i, adj); r == i.(localPoll := r.localPoll, pollScore := r.pollScore)
  {
  }

  lemma TransmittedOwns(p: Pair, task: int, isSync: bool, env: Env)
    requires Fired(p, task)
    ensures Fine(Transmitted(p, task, isSync, env)) && Owns(Transmitted(p, task, isSync, env), task)
    ensures OthersKept(p.timers, Transmitted(p, task, isSync, env).timers, task)
  {
    hide Mine, Ids, BackedOff, Start, OthersKept, Pow2;
    if Presends(p.inst) {
      StartOwns(p.(inst := p.inst.(presendDone := true)), task, WARM_UP_DELAY, env);
    } else {
      BackedOffIsFree(p, task, isSync);
      var b := BackedOff(p, isSync);
      var q := b.(inst := Counted(b.inst));
      if q.inst.opmode.Offline? {
      } else {
        var delay := if q.inst.opmode.Online? then Pow2(q.inst.localPoll) as real else BURST_TIMEOUT;
        StartOwns(q, task, delay, env);
        OthersTransitive(p.timers, q.timers, Start(q, task, delay, env).timers, task);
      }
    }
  }

  lemma BeforeAnswer(i: Instance, m: Packet)
    ensures var j := KissOfDeath(Noted(i, m), m);
            j.opmode == i.opmode && j.timerRunning == i.timerRunning && j.timeoutId == i.timeoutId
  {
    hide AdjustPoll;
    var i0 := i.(remotePoll := m.remotePoll);
    var i1 := if m.validHeader && m.validData then i0.(txCount := 0) else i0;
    AdjustKeepsTimer(i1, m.pollAdj);
    AdjustKeepsTimer(i1, 0.1);
  }

  lemma AnsweredOwns(p: Pair, m: Packet, task: int)
    requires Fine(p) && Owns(p, task)
    ensures Fine(Answered(p, m)) && Owns(Answered(p, m), task)
    ensures OthersKept(p.timers, Answered(p, m).timers, task)
  {
    hide Mine, Ids, Step, OthersKept;
    OthersReflexive(p.timers, task);
    if p.inst.opmode.BurstWasOffline? {
      CancelFrees(p, task);
    }
  }

  lemma ReceivedOwns(p: Pair, m: Packet, task: int, env: Env)
    requires Fine(p) && Owns(p, task)
    ensures Fine(Received(p, m, task, env)) && Owns(Received(p, m, task, env), task)
    ensures OthersKept(p.timers, Received(p, m, task, env).timers, task)
  {
    var i := KissOfDeath(Noted(p.inst, m), m);
    var b := p.(inst := i);
    BeforeAnswer(p.inst, m);
    hide Mine, Ids, Cancel, Start, Answered, KissOfDeath, Noted, NextDelay, OthersKept;
    AnsweredOwns(b, m, task);
    var q := Answered(b, m);
    if !q.inst.opmode.Offline? {
      CancelFrees(q, task);
      var c := Cancel(q);
      CancelKeepsRecord(q);
      StartOwns(c, task, NextDelay(q.inst, m), env);
      OthersTransitive(b.timers, q.timers, c.timers, task);
      OthersTransitive(b.timers, c.timers, Start(c, task, NextDelay(q.inst, m), env).timers, task);
    }
  }

  lemma CancelKeepsRecord(p: Pair)
    requires Fine(p)
    ensures Cancel(p).inst == p.inst
  {
  }

  lemma TakenOfflineOwns(p: Pair, task: int)
    requires Fine(p) && Owns(p, task)
    ensures Fine(TakenOffline(p)) && Owns(TakenOffline(p), task)
    ensures OthersKept(p.timers, TakenOffline(p).timers, task)
  {
    hide Mine, Ids, Step, OthersKept;
    OthersReflexive(p.timers, task);
    if p.inst.opmode.Online? {
      CancelFrees(p, task);
    }
  }

  lemma TakenOnlineOwns(p: Pair, task: int, env: Env)
    requires Fine(p) && Owns(p, task)
    ensures Fine(TakenOnline(p, task, env)) && Owns(TakenOnline(p, task, env), task)
    ensures OthersKept(p.timers, TakenOnline(p, task, env).timers, task)
  {
    hide Mine, Ids, Start, OthersKept;
    OthersReflexive(p.timers, task);
    if p.inst.opmode.Offline? {
      var i := p.inst.(txCount := 0, localPoll := p.inst.minpoll, pollScore := 0.5, opmode := Online);
      StartOwns(p.(inst := i), task, INITIAL_DELAY, env);
    }
  }

  lemma BurstStartedOwns(p: Pair, task: int, good: int, total: int, env: Env)
    requires Fine(p) && Owns(p, task)
    ensures Fine(BurstStarted(p, task, good, total, env)) && Owns(BurstStarted(p, task, good, total, env), task)
    ensures OthersKept(p.timers, BurstStarted(p, task, good, total, env).timers, task)
  {
    hide Mine, Ids, Start, Cancel, OthersKept;
    OthersReflexive(p.timers, task);
    if p.inst.mode.Client? && !InBurst(p.inst.opmode) {
      var i := p.inst.(opmode := if p.inst.opmode.Online? then BurstWasOnline else BurstWasOffline,
                       goodToGo := good, totalToGo := total);
      var q := p;
      if i.timerRunning {
        CancelFrees(p, task);
        CancelKeepsRecord(p);
        q := Cancel(p);
      }
      StartOwns(q.(inst := i), task, INITIAL_DELAY, env);
      OthersTransitive(p.timers, q.timers, Start(q.(inst := i), task, INITIAL_DELAY, env).timers, task);
    }
  }

  lemma CreatedOwns(params: Params, timers: State, task: int, env: Env)
    requires Sound(timers) && Mine(timers.queue, task) == {}
    ensures Fine(Created(params, timers, task, env)) && Owns(Created(params, timers, task, env), task)
    ensures OthersKept(timers, Created(params, timers, task, env).timers, task)
  {
    hide Mine, Ids, Start, BurstStarted, OthersKept;
    OthersReflexive(timers, task);
    var i := Instance(params.mode, Offline, false, 0, false, 0, 0, params.presendMinpoll, false,
                      params.minpoll, params.maxpoll, 0.0, 0, 0, 0);
    var p := Pair(i, timers);
    if params.online {
      StartOwns(p, task, INITIAL_DELAY, env);
      var q := Start(p, task, INITIAL_DELAY, env);
      p := q.(inst := q.inst.(opmode := Online));
    }
    if params.iburst {
      BurstStartedOwns(p, task, 4, 8, env);
      OthersTransitive(timers, p.timers, BurstStarted(p, task, 4, 8, env).timers, task);
    }
  }

  lemma DestroyedOwnsNothing(p: Pair, task: int)
    requires Fine(p) && Owns(p, task)
    ensures Sound(Destroyed(p)) && Mine(Destroyed(p).queue, task) == {}
    ensures OthersKept(p.timers, Destroyed(p), task)
  {
    hide Mine, Ids, Step, OthersKept;
    OthersReflexive(p.timers, task);
    if p.inst.timerRunning {
      CancelFrees(p, task);
    }
  }
}
