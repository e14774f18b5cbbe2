/** All NTP sources over one timer queue: who owns which timeout in every reachable state, and how
    long a burst can last. */
module NtpWorld {
  import opened NtpAssociation
  import opened Numbers
  import opened Scheduler

  /** The timeouts of the broadcast servers. */
  const BROADCAST: nat := 2

  /** The live instances, named by the argument of their timeouts, and the timer queue. */
  datatype World = World(insts: map<int, Instance>, timers: State)

  datatype Event =
    | Create(task: int, params: Params)
    | Destroy(task: int)
    | GoOnline(task: int)
    | GoOffline(task: int)
    | Burst(task: int, good: int, total: int)
    | Receive(task: int, packet: Packet)
    | Timeout(isSync: bool)
    | Foreign(tv: real, owner: int)
    | Broadcast(delay: real, separation: real, owner: int)
    | ForeignRemove(id: nat)
    | ClockStep(offset: real)

  datatype Moment = Moment(event: Event, env: Env)

  /** A new instance has an address of its own; the others are called on live instances. Other modules
      remove entries of their own, still queued or not. */
  predicate Possible(w: World, e: Event) {
    match e
    case Create(task, _) => task !in w.insts
    case Timeout(_) => true
    case Foreign(_, _) => true
    case Broadcast(_, _, _) => true
    case ForeignRemove(id) => forall i :: 0 <= i < |w.timers.queue| && w.timers.queue[i].id == id ==>
      w.timers.queue[i].cls != SAMPLING
    case ClockStep(_) => true
    case _ => e.task in w.insts
  }

  ghost predicate SoundWorld(w: World) {
    && Sound(w.timers)
    && (forall task :: task in w.insts ==> Owns(Pair(w.insts[task], w.timers), task))
    && (forall task: int :: task !in w.insts ==> Mine(w.timers.queue, task) == {})
  }

  ghost function Put(w: World, task: int, p: Pair): World {
    World(w.insts[task := p.inst], p.timers)
  }

  /** The scheduler takes one due entry and runs its handler; the handlers of other modules are not modelled. */
  ghost function Fire(w: World, isSync: bool, env: Env): World
    requires SoundWorld(w)
  {
    if !Due(w.timers, env.now) then w
    else
      var e, t := w.timers.queue[0], Step(w.timers, Dispatch(env.now));
      if e.cls == SAMPLING && e.task in w.insts
      then Put(w, e.task, Transmitted(Pair(w.insts[e.task], t), e.task, isSync, env))
      else w.(timers := t)
  }

  ghost function After(w: World, m: Moment): World
    requires SoundWorld(w) && Possible(w, m.event)
  {
    match m.event
    case Create(task, params) => Put(w, task, Created(params, w.timers, task, m.env))
    case Destroy(task) => World(w.insts - {task}, Destroyed(Pair(w.insts[task], w.timers)))
    case GoOnline(task) => Put(w, task, TakenOnline(Pair(w.insts[task], w.timers), task, m.env))
    case GoOffline(task) => Put(w, task, TakenOffline(Pair(w.insts[task], w.timers)))
    case Burst(task, good, total) => Put(w, task, BurstStarted(Pair(w.insts[task], w.timers), task, good, total, m.env))
    case Receive(task, packet) => Put(w, task, Received(Pair(w.insts[task], w.timers), packet, task, m.env))
    case Timeout(isSync) => Fire(w, isSync, m.env)
    case Foreign(tv, owner) => w.(timers := Step(w.timers, Add(tv, owner)))
    case Broadcast(delay, separation, owner) =>
      w.(timers := Step(w.timers, AddClass(m.env.now, delay, separation, BROADCAST, owner)))
    case ForeignRemove(id) => w.(timers := Step(w.timers, Remove(id)))
    case ClockStep(offset) => w.(timers := Step(w.timers, StepClock(offset)))
  }

  // ---------- every event keeps the ownership ----------

  lemma PutIsSound(w: World, task: int, p: Pair)
    requires Sound(p.timers) && Owns(p, task)
    requires forall other :: other in w.insts && other != task ==> Owns(Pair(w.insts[other], w.timers), other)
    requires forall other: int :: other !in w.insts && other != task ==> Mine(w.timers.queue, other) == {}
    requires OthersKept(w.timers, p.timers, task)
    ensures SoundWorld(Put(w, task, p))
  {
    hide Mine, Sound;
    var v := Put(w, task, p);
    forall other | other in v.insts ensures Owns(Pair(v.insts[other], v.timers), other) {
      if other != task {
        assert Owns(Pair(w.insts[other], w.timers), other);
      }
    }
  }

  lemma SameOwners(w: World, t: State)
    requires SoundWorld(w) && Sound(t) && forall task: int :: Mine(t.queue, task) == Mine(w.timers.queue, task)
    ensures SoundWorld(w.(timers := t))
  {
    hide Mine, Sound;
    forall task | task in w.insts ensures Owns(Pair(w.insts[task], t), task) {
      assert Owns(Pair(w.insts[task], w.timers), task);
    }
  }

  lemma MineOfShift(q: Queue, offset: real, task: int)
    ensures Mine(Shift(q, offset), task) == Mine(q, task)
  {
    var r := Shift(q, offset);
    forall i | 0 <= i < |q| ensures r[i].id == q[i].id && r[i].cls == q[i].cls && r[i].task == q[i].task {
    }
  }

  /** Taking the first entry leaves its source without one, and no other source touched. */
  lemma DispatchFrees(w: World, now: real)
    requires SoundWorld(w) && Due(w.timers, now)
    ensures var e, t := w.timers.queue[0], Step(w.timers, Dispatch(now));
            && (e.cls == SAMPLING ==>
                  e.task in w.insts && Fired(Pair(w.insts[e.task], t), e.task)
                  && OthersKept(w.timers, t, e.task))
            && (e.cls != SAMPLING ==> forall task: int :: Mine(t.queue, task) == Mine(w.timers.queue, task))
  {
    var q := w.timers.queue;
    var e, t := q[0], Step(w.timers, Dispatch(now));
    assert t.queue == q[..0] + q[1..];
    forall task: int ensures Mine(t.queue, task) == Mine(q, task) - {e.id} {
      MineOfTakeOut(q, 0, task);
    }
    if e.cls == SAMPLING {
      assert e.id in Mine(q, e.task);
      assert e.task in w.insts;
      assert Owns(Pair(w.insts[e.task], w.timers), e.task);
      forall other: int | other != e.task ensures Mine(t.queue, other) == Mine(q, other) {
        MineIsDisjoint(q, e.task, other);
      }
      forall i | 1 <= i < |q| ensures q[i].id != e.id {
      }
    } else {
      forall task: int ensures e.id !in Mine(q, task) {
      }
    }
  }

  lemma FireKeepsSound(w: World, isSync: bool, env: Env)
    requires SoundWorld(w)
    ensures SoundWorld(Fire(w, isSync, env))
  {
    hide Mine, Sound, Owns, Transmitted, OthersKept, Fired;
    if Due(w.timers, env.now) {
      var e, t := w.timers.queue[0], Step(w.timers, Dispatch(env.now));
      DispatchFrees(w, env.now);
      if e.cls == SAMPLING {
        var p := Pair(w.insts[e.task], t);
        FiredIsFine(p, e.task);
        TransmittedOwns(p, e.task, isSync, env);
        var r := Transmitted(p, e.task, isSync, env);
        OthersTransitive(w.timers, t, r.timers, e.task);
        FineIsSound(r);
        PutIsSound(w, e.task, r);
      } else {
        SameOwners(w, t);
      }
    }
  }

  lemma FiredIsFine(p: Pair, task: int)
    requires Fired(p, task)
    ensures Fine(p)
  {
  }

  lemma FineIsSound(p: Pair)
    requires Fine(p)
    ensures Sound(p.timers)
  {
  }

  lemma DestroyKeepsSound(w: World, task: int)
    requires SoundWorld(w) && task in w.insts
    ensures SoundWorld(World(w.insts - {task}, Destroyed(Pair(w.insts[task], w.timers))))
  {
    hide Mine, Sound, Destroyed;
    var t := Destroyed(Pair(w.insts[task], w.timers));
    DestroyedOwnsNothing(Pair(w.insts[task], w.timers), task);
    forall other | other in w.insts && other != task ensures Owns(Pair(w.insts[other], t), other) {
      assert Owns(Pair(w.insts[other], w.timers), other);
    }
  }

  lemma ForeignKeepsSound(w: World, tv: real, owner: int)
    requires SoundWorld(w)
    ensures SoundWorld(w.(timers := Step(w.timers, Add(tv, owner))))
  {
    var e := Entry(tv, w.timers.nextId, RESERVED, owner);
    var t := Step(w.timers, Add(tv, owner));
    assert t.queue == Insert(w.timers.queue, e);
    hide Mine, Insert, Sound;
    forall task: int ensures Mine(t.queue, task) == Mine(w.timers.queue, task) {
      MineOfInsert(w.timers.queue, e, task);
    }
    SameOwners(w, t);
  }

  lemma BroadcastKeepsSound(w: World, now: real, delay: real, separation: real, owner: int)
    requires SoundWorld(w)
    ensures SoundWorld(w.(timers := Step(w.timers, AddClass(now, delay, separation, BROADCAST, owner))))
  {
    var s := w.timers;
    var e := Entry(now + ClassDelay(s, now, delay, separation, BROADCAST), s.nextId, BROADCAST, owner);
    var t := Step(s, AddClass(now, delay, separation, BROADCAST, owner));
    assert t.queue == Insert(s.queue, e);
    hide Mine, Insert, Sound;
    forall task: int ensures Mine(t.queue, task) == Mine(s.queue, task) {
      MineOfInsert(s.queue, e, task);
    }
    SameOwners(w, t);
  }

  lemma ForeignRemoveKeepsSound(w: World, id: nat)
    requires SoundWorld(w) && Possible(w, ForeignRemove(id))
    ensures SoundWorld(w.(timers := Step(w.timers, Remove(id))))
  {
    var q, t := w.timers.queue, Step(w.timers, Remove(id));
    var n := IndexOf(q, id);
    forall task: int ensures Mine(t.queue, task) == Mine(q, task) {
      if n < |q| {
        MineOfTakeOut(q, n, task);
        assert q[n].id !in Mine(q, task);
      }
    }
    SameOwners(w, t);
  }

  lemma ClockStepKeepsSound(w: World, offset: real)
    requires SoundWorld(w)
    ensures SoundWorld(w.(timers := Step(w.timers, StepClock(offset))))
  {
    var t := Step(w.timers, StepClock(offset));
    forall task: int ensures Mine(t.queue, task) == Mine(w.timers.queue, task) {
      MineOfShift(w.timers.queue, offset, task);
    }
    SameOwners(w, t);
  }

  lemma EventKeepsSound(w: World, m: Moment)
    requires SoundWorld(w) && Possible(w, m.event)
    ensures SoundWorld(After(w, m))
  {
    hide Mine, Sound, Owns, OthersKept, Created, Destroyed, TakenOnline, TakenOffline, BurstStarted, Received, Fire, Put;
    match m.event {
      case Create(task, params) =>
        CreatedOwns(params, w.timers, task, m.env);
        PutIsSound(w, task, Created(params, w.timers, task, m.env));
      case Destroy(task) =>
        DestroyKeepsSound(w, task);
      case GoOnline(task) =>
        TakenOnlineOwns(Pair(w.insts[task], w.timers), task, m.env);
        PutIsSound(w, task, TakenOnline(Pair(w.insts[task], w.timers), task, m.env));
      case GoOffline(task) =>
        TakenOfflineOwns(Pair(w.insts[task], w.timers), task);
        PutIsSound(w, task, TakenOffline(Pair(w.insts[task], w.timers)));
      case Burst(task, good, total) =>
        BurstStartedOwns(Pair(w.insts[task], w.timers), task, good, total, m.env);
        PutIsSound(w, task, BurstStarted(Pair(w.insts[task], w.timers), task, good, total, m.env));
      case Receive(task, packet) =>
        ReceivedOwns(Pair(w.insts[task], w.timers), packet, task, m.env);
        PutIsSound(w, task, Received(Pair(w.insts[task], w.timers), packet, task, m.env));
      case Timeout(isSync) =>
        FireKeepsSound(w, isSync, m.env);
      case Foreign(tv, owner) =>
        ForeignKeepsSound(w, tv, owner);
      case Broadcast(delay, separation, owner) =>
        BroadcastKeepsSound(w, m.env.now, delay, separation, owner);
      case ForeignRemove(id) =>
        ForeignRemoveKeepsSound(w, id);
      case ClockStep(offset) =>
        ClockStepKeepsSound(w, offset);
    }
  }

  // ---------- runs ----------

  lemma EmptyWorldIsSound()
    ensures SoundWorld(World(map[], State([], 0, [0.0, 0.0, 0.0])))
  {
  }

  /** The world after a run; calls on instances that do not exist cannot be made and are skipped. */
  ghost function Run(moments: seq<Moment>): (w: World)
    ensures SoundWorld(w)
  {
    EmptyWorldIsSound();
    if moments == [] then World(map[], State([], 0, [0.0, 0.0, 0.0]))
    else
      var n := |moments| - 1;
      var v := Run(moments[..n]);
      if Possible(v, moments[n].event) then EventKeepsSound(v, moments[n]); After(v, moments[n]) else v
  }

  predicate IsTransmission(e: Entry, task: int) { e.cls == SAMPLING && e.task == task }

  /** After any run of timeouts, packets and commands: a source that is not offline has exactly one
      queued transmission, the one it remembers; an offline or destroyed source has none. */
  lemma OneTimeoutPerSource(moments: seq<Moment>, task: int)
    ensures var w := Run(moments);
            var q := w.timers.queue;
            && (task in w.insts ==>
                  (w.insts[task].timerRunning <==> !w.insts[task].opmode.Offline?))
            && (task in w.insts && !w.insts[task].opmode.Offline? ==>
                  exists i :: 0 <= i < |q| && IsTransmission(q[i], task) && q[i].id == w.insts[task].timeoutId
                    && forall j :: 0 <= j < |q| && IsTransmission(q[j], task) ==> j == i)
            && (task !in w.insts || w.insts[task].opmode.Offline? ==>
                  forall i :: 0 <= i < |q| ==> !IsTransmission(q[i], task))
  {
    var w := Run(moments);
    hide Run;
    var q := w.timers.queue;
    if task in w.insts && !w.insts[task].opmode.Offline? {
      assert Owns(Pair(w.insts[task], w.timers), task);
      var id := w.insts[task].timeoutId;
      assert id in Mine(q, task);
      var i :| 0 <= i < |q| && q[i].cls == SAMPLING && q[i].task == task && q[i].id == id;
      forall j | 0 <= j < |q| && IsTransmission(q[j], task) ensures j == i {
        assert q[j].id in Mine(q, task);
      }
    } else {
      assert task in w.insts ==> Owns(Pair(w.insts[task], w.timers), task);
      forall i | 0 <= i < |q| ensures !IsTransmission(q[i], task) {
        assert IsTransmission(q[i], task) ==> q[i].id in Mine(q, task);
      }
    }
  }

  // ---------- bursts ----------

  /** A call of one instance's functions, with the timer queue it finds. */
  datatype Call =
    | Fires(isSync: bool)
    | Gets(packet: Packet)
    | Joins
    | Leaves
    | Bursts(good: int, total: int)

  datatype Turn = Turn(call: Call, timers: State, env: Env)

  ghost function Handled(i: Instance, task: int, t: Turn): Instance
    requires Sound(t.timers)
  {
    var p := Pair(i, t.timers);
    match t.call
    case Fires(isSync) => Transmitted(p, task, isSync, t.env).inst
    case Gets(packet) => Received(p, packet, task, t.env).inst
    case Joins => TakenOnline(p, task, t.env).inst
    case Leaves => TakenOffline(p).inst
    case Bursts(good, total) => BurstStarted(p, task, good, total, t.env).inst
  }

  ghost predicate SendsIn(i: Instance, t: Turn)
    requires Sound(t.timers)
  {
    t.call.Fires? && Sends(Pair(i, t.timers), t.call.isSync)
  }

  /** The packets sent in a series of calls, each made while the instance is in burst mode. */
  ghost function SentInBurst(i: Instance, task: int, turns: seq<Turn>): nat
    requires forall k :: 0 <= k < |turns| ==> Sound(turns[k].timers)
    decreases |turns|
  {
    if turns == [] || !InBurst(i.opmode) then 0
    else (if SendsIn(i, turns[0]) then 1 else 0) + SentInBurst(Handled(i, task, turns[0]), task, turns[1..])
  }

  lemma BackedOffInBurst(p: Pair, isSync: bool)
    requires Fine(p) && InBurst(p.inst.opmode)
    ensures var q := BackedOff(p, isSync);
            Fine(q) && InBurst(q.inst.opmode) && q.inst.totalToGo == p.inst.totalToGo
  {
    hide AdjustPoll;
    AdjustKeepsTimer(p.inst.(presendDone := false, txCount := p.inst.txCount + 1), if isSync then 0.1 else 0.25);
  }

  lemma StartKeepsBurst(p: Pair, task: int, delay: real, env: Env)
    requires Fine(p)
    ensures var r := Start(p, task, delay, env).inst;
            r.opmode == p.inst.opmode && r.totalToGo == p.inst.totalToGo
  {
  }

  lemma FiresInBurst(p: Pair, task: int, isSync: bool, env: Env)
    requires Fine(p) && InBurst(p.inst.opmode)
    ensures var r := Transmitted(p, task, isSync, env).inst;
            if Sends(p, isSync)
            then r.totalToGo == p.inst.totalToGo - 1 && (InBurst(r.opmode) <==> r.totalToGo > 0)
            else r.totalToGo == p.inst.totalToGo && InBurst(r.opmode)
  {
    hide Start, BackedOff, Pow2;
    if Presends(p.inst) {
      StartKeepsBurst(p.(inst := p.inst.(presendDone := true)), task, WARM_UP_DELAY, env);
    } else {
      BackedOffInBurst(p, isSync);
      var b := BackedOff(p, isSync);
      var q := b.(inst := Counted(b.inst));
      if !q.inst.opmode.Offline? {
        StartKeepsBurst(q, task, if q.inst.opmode.Online? then Pow2(q.inst.localPoll) as real else BURST_TIMEOUT, env);
      }
    }
  }

  lemma NotedKeepsBurst(i: Instance, m: Packet)
    ensures KissOfDeath(Noted(i, m), m).totalToGo == i.totalToGo
  {
    hide AdjustPoll;
    var i0 := i.(remotePoll := m.remotePoll);
    var i1 := if m.validHeader && m.validData then i0.(txCount := 0) else i0;
    AdjustKeepsTimer(i1, m.pollAdj);
    AdjustKeepsTimer(i1, 0.1);
  }

  lemma GetsInBurst(p: Pair, m: Packet, task: int, env: Env)
    requires Fine(p)
    ensures Received(p, m, task, env).inst.totalToGo == p.inst.totalToGo
  {
    NotedKeepsBurst(p.inst, m);
    hide KissOfDeath, Noted, NextDelay, Start;
    var b := p.(inst := KissOfDeath(Noted(p.inst, m), m));
    var q := Answered(b, m);
    assert q.inst.totalToGo == p.inst.totalToGo;
    if !q.inst.opmode.Offline? {
      CancelKeepsRecord(q);
      StartKeepsBurst(Cancel(q), task, NextDelay(q.inst, m), env);
    }
  }

  /** However a burst goes on, it sends at most as many packets as it was started with, or one. */
  lemma {:induction false} BurstIsBounded(i: Instance, task: int, turns: seq<Turn>)
    requires forall k :: 0 <= k < |turns| ==> Sound(turns[k].timers)
    ensures SentInBurst(i, task, turns) <= if i.totalToGo > 1 then i.totalToGo else 1
    decreases |turns|
  {
    if turns != [] && InBurst(i.opmode) {
      var t := turns[0];
      var p := Pair(i, t.timers);
      BurstIsBounded(Handled(i, task, t), task, turns[1..]);
      hide Transmitted, Received, Sends;
      match t.call {
        case Fires(isSync) => FiresInBurst(p, task, isSync, t.env);
        case Gets(packet) => GetsInBurst(p, packet, task, t.env);
        case _ =>
      }
    }
  }

  /** A burst of n_total_samples sends at most max(1, n_total_samples) packets before it ends. */
  lemma BurstOfTotal(p: Pair, task: int, good: int, total: int, env: Env, turns: seq<Turn>)
    requires Fine(p) && p.inst.mode.Client? && !InBurst(p.inst.opmode)
    requires forall k :: 0 <= k < |turns| ==> Sound(turns[k].timers)
    ensures var i := BurstStarted(p, task, good, total, env).inst;
            InBurst(i.opmode) && SentInBurst(i, task, turns) <= if total > 1 then total else 1
  {
    BurstIsBounded(BurstStarted(p, task, good, total, env).inst, task, turns);
    hide SentInBurst;
  }
}
