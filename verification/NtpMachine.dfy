/** The functions of ntp_core.c as they update one instance record and the scheduler's queue. */
module NtpMachine {
  import opened NtpAssociation
  import opened Numbers
  import opened Scheduler

  class Association {
    const timers: TimerQueue
    const task: int
    const mode: Mode
    var opmode: OpMode
    var timerRunning: bool
    var timeoutId: nat
    var autoOffline: bool
    var localPoll: int
    var remotePoll: int
    const presendMinpoll: int
    var presendDone: bool
    var minpoll: int
    var maxpoll: int
    var pollScore: real
    var txCount: nat
    var goodToGo: int
    var totalToGo: int

    ghost function Record(): Instance
      reads this
    {
      Instance(mode, opmode, timerRunning, timeoutId, autoOffline, localPoll, remotePoll, presendMinpoll,
               presendDone, minpoll, maxpoll, pollScore, txCount, goodToGo, totalToGo)
    }

    ghost function View(): Pair
      reads this, timers
    {
      Pair(Record(), timers.Now())
    }

    ghost predicate Valid()
      reads this, timers
    {
      timers.Valid()
    }

    /** NCR_GetInstance. */
    constructor (timers: TimerQueue, task: int, params: Params, env: Env)
      requires timers.Valid() && env.draw < 0xffff
      modifies timers
      ensures this.timers == timers && this.task == task && Valid()
      ensures View() == Created(params, old(timers.Now()), task, env)
    {
      hide Step, Stretched;
      this.timers := timers;
      this.task := task;
      mode := params.mode;
      minpoll, maxpoll, presendMinpoll := params.minpoll, params.maxpoll, params.presendMinpoll;
      presendDone, txCount, pollScore := false, 0, 0.0;
      autoOffline, localPoll, remotePoll, goodToGo, totalToGo := false, 0, 0, 0, 0;
      timerRunning, timeoutId, opmode := false, 0, Offline;
      new;
      if params.online {
        StartInitialTimeout(env);
        opmode := Online;
      }
      if params.iburst {
        InitiateSampleBurst(4, 8, env);
      }
      autoOffline := params.autoOffline;
      localPoll := params.minpoll;
    }

    /** Queue a transmission after a delay. */
    method Schedule(delay: real, env: Env)
      requires Valid() && delay >= 0.0 && env.draw < 0xffff
      modifies `timeoutId, timers
      ensures Valid()
      ensures View() == Start(old(View()), task, delay, env).(inst := old(Record()).(timeoutId := old(timers.Now()).nextId))
    {
      hide Step, Stretched;
      timeoutId := timers.AddTimeoutInClass(env.now, delay, SAMPLING_SEPARATION, SAMPLING_RANDOMNESS, env.draw,
                                            SAMPLING, task);
    }

    /** start_initial_timeout. */
    method StartInitialTimeout(env: Env)
      requires Valid() && env.draw < 0xffff
      modifies `timeoutId, `timerRunning, timers
      ensures Valid() && View() == Start(old(View()), task, INITIAL_DELAY, env)
    {
      hide Step, Stretched;
      Schedule(INITIAL_DELAY, env);
      timerRunning := true;
    }

    /** adjust_poll. */
    method Adjust(adj: real)
      modifies `pollScore, `localPoll
      ensures Record() == AdjustPoll(old(Record()), adj)
    {
      pollScore := pollScore + adj;
      if pollScore >= 1.0 {
        localPoll := localPoll + Truncate(pollScore);
        pollScore := pollScore - Truncate(pollScore) as real;
      }
      if pollScore < 0.0 {
        localPoll := localPoll + Truncate(pollScore - 1.0);
        pollScore := pollScore - Truncate(pollScore - 1.0) as real;
      }
      if localPoll < minpoll {
        localPoll := minpoll;
        pollScore := 0.0;
      } else if localPoll > maxpoll {
        localPoll := maxpoll;
        pollScore := 1.0;
      }
    }

    /** NCR_TakeSourceOffline. */
    method TakeOffline()
      requires Valid()
      modifies `opmode, `timerRunning, timers
      ensures Valid() && View() == TakenOffline(old(View()))
    {
      hide Step;
      match opmode {
        case Online =>
          if timerRunning {
            timers.RemoveTimeout(timeoutId);
            timerRunning := false;
            opmode := Offline;
          }
        case Offline =>
        case BurstWasOnline =>
          opmode := BurstWasOffline;
        case BurstWasOffline =>
      }
    }

    /** NCR_TakeSourceOnline. */
    method TakeOnline(env: Env)
      requires Valid() && env.draw < 0xffff
      modifies this, timers
      ensures Valid() && View() == TakenOnline(old(View()), task, env)
    {
      hide Start;
      match opmode {
        case Online =>
        case Offline =>
          if !timerRunning {
            txCount := 0;
            localPoll := minpoll;
            pollScore := 0.5;
            opmode := Online;
            StartInitialTimeout(env);
          }
        case BurstWasOnline =>
        case BurstWasOffline =>
          opmode := BurstWasOnline;
      }
    }

    /** NCR_InitiateSampleBurst. */
    method InitiateSampleBurst(good: int, total: int, env: Env)
      requires Valid() && env.draw < 0xffff
      modifies this, timers
      ensures Valid() && View() == BurstStarted(old(View()), task, good, total, env)
    {
      hide Step, Stretched;
      if mode.Client? {
        match opmode {
          case BurstWasOffline =>
          case BurstWasOnline =>
          case _ =>
            opmode := if opmode.Online? then BurstWasOnline else BurstWasOffline;
            goodToGo := good;
            totalToGo := total;
            if timerRunning {
              timers.RemoveTimeout(timeoutId);
            }
            timerRunning := true;
            Schedule(INITIAL_DELAY, env);
        }
      }
    }

    /** transmit_timeout; sent says whether an NTP packet leaves. */
    method TransmitTimeout(isSync: bool, env: Env) returns (sent: bool)
      requires Valid() && env.draw < 0xffff
      modifies this, timers
      ensures Valid() && View() == Transmitted(old(View()), task, isSync, env)
      ensures sent <==> old(Sends(View(), isSync))
    {
      hide Step, Stretched, AdjustPoll, Pow2, BackedOff, Counted, Requeued;
      if presendMinpoll > 0 && presendMinpoll <= localPoll && !presendDone {
        presendDone := true;
        timerRunning := true;
        Restart(WARM_UP_DELAY, env);
        return false;
      }
      BackOff(isSync);
      sent := opmode != Offline;
      CountDown();
      RestartTimer(env);
    }

    /** Queue a transmission for a record that says its timer runs. */
    method Restart(delay: real, env: Env)
      requires Valid() && delay >= 0.0 && env.draw < 0xffff && timerRunning
      modifies `timeoutId, timers
      ensures Valid() && View() == Start(old(View()), task, delay, env)
    {
      hide Step, Stretched;
      Schedule(delay, env);
    }

    /** The part of transmit_timeout that counts unanswered packets. */
    method BackOff(isSync: bool)
      requires Valid()
      modifies this, timers
      ensures Valid() && View() == BackedOff(old(View()), isSync)
    {
      hide Step, AdjustPoll, TakenOffline;
      presendDone := false;
      txCount := txCount + 1;
      if txCount >= 2 {
        Adjust(if isSync then 0.1 else 0.25);
        AdjustKeepsTimer(Instance(mode, opmode, timerRunning, timeoutId, autoOffline, old(localPoll), remotePoll,
                                  presendMinpoll, presendDone, minpoll, maxpoll, old(pollScore), txCount, goodToGo,
                                  totalToGo), if isSync then 0.1 else 0.25);
        if autoOffline && txCount >= 3 {
          TakeOffline();
        }
      }
    }

    /** The part of transmit_timeout that ends a burst. */
    method CountDown()
      modifies `totalToGo, `opmode
      ensures Record() == Counted(old(Record()))
    {
      match opmode {
        case BurstWasOffline =>
          totalToGo := totalToGo - 1;
          if totalToGo <= 0 {
            opmode := Offline;
          }
        case BurstWasOnline =>
          totalToGo := totalToGo - 1;
          if totalToGo <= 0 {
            opmode := Online;
          }
        case _ =>
      }
    }

    /** The part of transmit_timeout that restarts the timer. */
    method RestartTimer(env: Env)
      requires Valid() && env.draw < 0xffff
      modifies `timeoutId, `timerRunning, timers
      ensures Valid() && View() == Requeued(old(View()), task, env)
    {
      hide Step, Stretched, Pow2;
      match opmode {
        case Offline =>
          timerRunning := false;
        case Online =>
          timerRunning := true;
          Schedule(Pow2(localPoll) as real, env);
        case _ =>
          timerRunning := true;
          Schedule(BURST_TIMEOUT, env);
      }
    }

    /** The mode and timer part of receive_packet. */
    method ReceivePacket(m: Packet, env: Env)
      requires Valid() && env.draw < 0xffff
      modifies this, timers
      ensures Valid() && View() == Received(old(View()), m, task, env)
    {
      hide Step, Stretched, AdjustPoll, Pow2, Noted, KissOfDeath, Answered;
      Note(m);
      Kiss(m);
      CountAnswer(m);
      if opmode != Offline {
        var delay := DelayAfter(m);
        timers.RemoveTimeout(timeoutId);
        Schedule(delay, env);
      }
    }

    /** Bookkeeping of a received packet. */
    method Note(m: Packet)
      modifies `remotePoll, `txCount, `pollScore, `localPoll
      ensures Record() == Noted(old(Record()), m)
    {
      hide AdjustPoll;
      remotePoll := m.remotePoll;
      if m.validHeader && m.validData {
        txCount := 0;
      }
      if m.validHeader && m.goodData {
        Adjust(m.pollAdj);
      } else if m.validHeader && m.validData {
        Adjust(0.1);
      }
    }

    method Kiss(m: Packet)
      modifies `minpoll, `maxpoll, `localPoll, `goodToGo
      ensures Record() == KissOfDeath(old(Record()), m)
    {
      if m.kodRate && m.validKod {
        if remotePoll > minpoll {
          minpoll := remotePoll;
          if minpoll > maxpoll {
            maxpoll := minpoll;
          }
          if minpoll > localPoll {
            localPoll := minpoll;
          }
        }
        if opmode == BurstWasOffline || opmode == BurstWasOnline {
          goodToGo := 0;
        }
      }
    }

    method CountAnswer(m: Packet)
      requires Valid()
      modifies `goodToGo, `opmode, `timerRunning, timers
      ensures Valid() && View() == Answered(old(View()), m)
    {
      hide Step;
      match opmode {
        case BurstWasOnline =>
          if m.validData {
            goodToGo := goodToGo - 1;
          }
          if goodToGo <= 0 {
            opmode := Online;
          }
        case BurstWasOffline =>
          if m.validData {
            goodToGo := goodToGo - 1;
          }
          if goodToGo <= 0 {
            opmode := Offline;
            if timerRunning {
              timers.RemoveTimeout(timeoutId);
            }
            timerRunning := false;
          }
        case _ =>
      }
    }

    method DelayAfter(m: Packet) returns (delay: real)
      requires opmode != Offline
      ensures delay == NextDelay(Record(), m) && delay >= 0.0
    {
      if opmode == Online {
        match mode {
          case Client =>
            delay := Pow2(localPoll) as real;
          case Active =>
            var poll := if localPoll < remotePoll then localPoll else remotePoll;
            if poll < minpoll {
              poll := minpoll;
            }
            if poll > maxpoll {
              poll := maxpoll;
            }
            delay := Pow2(poll - 1) as real;
        }
      } else {
        delay := BURST_INTERVAL;
      }
      if m.kodRate && m.validKod {
        delay := delay + 4.0 * (Pow2(minpoll) as real);
      }
    }

    /** The timer part of NCR_DestroyInstance. */
    method Destroy()
      requires Valid()
      modifies `timerRunning, timers
      ensures Valid() && timers.Now() == Destroyed(old(View()))
    {
      hide Step;
      if timerRunning {
        timers.RemoveTimeout(timeoutId);
        timerRunning := false;
      }
    }
  }
}
