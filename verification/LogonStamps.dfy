/** When a log-on time stamp can be used twice: cmdmon.c compares it with the raw clock, which may be
    stepped back. */
module LogonStamps {
  import opened CommandProtocol
  import opened CommandSafety

  /** The remembered stamps after the first i of a run of log-on packets. */
  function SeenAfter(stamps: seq<Time>, nows: seq<Time>, i: nat): seq<Time>
    requires i <= |stamps| == |nows|
  {
    if i == 0 then [] else Recorded(SeenAfter(stamps, nows, i - 1), stamps[i - 1], nows[i - 1])
  }

  predicate GrantedAt(stamps: seq<Time>, nows: seq<Time>, i: nat)
    requires i < |stamps| == |nows|
  {
    Grants(SeenAfter(stamps, nows, i), stamps[i], nows[i])
  }

  /** Between two log-ons less than 39 seconds apart the clock never reads 2 seconds or more past both. */
  ghost predicate Steady(nows: seq<Time>) {
    forall i, j, k :: 0 <= i < j < k < |nows| ==> !Overshoots(nows[i].sec, nows[j].sec, nows[k].sec)
  }

  predicate Overshoots(before: int, peak: int, after: int) {
    && -(2 * TS_MARGIN - 1) < before - after < 2 * TS_MARGIN - 1
    && peak > before + 1 && peak > after + 1
  }

  /** No stamp obtains two tokens. */
  ghost predicate GrantsOnce(stamps: seq<Time>, nows: seq<Time>)
    requires |stamps| == |nows|
  {
    forall i, k :: 0 <= i < k < |nows| && GrantedAt(stamps, nows, i) && GrantedAt(stamps, nows, k) ==>
      stamps[i] != stamps[k]
  }

  lemma {:induction false} FreshMeans(seen: seq<Time>, now: Time, t: Time)
    ensures t in Fresh(seen, now) <==> t in seen && !Stale(t, now)
  {
    if seen != [] {
      FreshMeans(seen[1..], now, t);
    }
  }

  lemma RecordedMeans(seen: seq<Time>, stamp: Time, now: Time, t: Time)
    ensures t in Recorded(seen, stamp, now) <==> t == stamp || (t in seen && !Stale(t, now))
  {
    FreshMeans(seen, now, t);
    FreshMeans(seen, now, stamp);
  }

  /** Where a remembered stamp was forgotten. */
  lemma {:induction false} ForgottenAt(stamps: seq<Time>, nows: seq<Time>, i: nat, k: nat, t: Time) returns (j: nat)
    requires i <= k <= |stamps| == |nows|
    requires t in SeenAfter(stamps, nows, i) && t !in SeenAfter(stamps, nows, k)
    ensures i <= j < k && Stale(t, nows[j])
    decreases k - i
  {
    RecordedMeans(SeenAfter(stamps, nows, k - 1), stamps[k - 1], nows[k - 1], t);
    if t in SeenAfter(stamps, nows, k - 1) {
      j := k - 1;
    } else {
      j := ForgottenAt(stamps, nows, i, k - 1, t);
    }
  }

  lemma SteadyGrantsOnce(stamps: seq<Time>, nows: seq<Time>)
    requires |stamps| == |nows| && Steady(nows)
    ensures GrantsOnce(stamps, nows)
  {
    forall i, k | 0 <= i < k < |nows| && GrantedAt(stamps, nows, i) && GrantedAt(stamps, nows, k)
      ensures stamps[i] != stamps[k]
    {
      if stamps[i] == stamps[k] {
        var t := stamps[i];
        RecordedMeans(SeenAfter(stamps, nows, i), t, nows[i], t);
        FreshMeans(SeenAfter(stamps, nows, k), nows[k], t);
        var j := ForgottenAt(stamps, nows, i + 1, k, t);
        assert false;
      }
    }
  }

  lemma {:induction false} NeverSeen(stamps: seq<Time>, nows: seq<Time>, i: nat, k: nat, t: Time)
    requires i <= k <= |stamps| == |nows| && t !in SeenAfter(stamps, nows, i) && t !in stamps[i..k]
    ensures t !in SeenAfter(stamps, nows, k)
    decreases k - i
  {
    if i < k {
      assert stamps[k - 1] == stamps[i..k][k - 1 - i];
      assert stamps[i..k - 1] <= stamps[i..k];
      NeverSeen(stamps, nows, i, k - 1, t);
      RecordedMeans(SeenAfter(stamps, nows, k - 1), stamps[k - 1], nows[k - 1], t);
    }
  }

  /** A clock that overshoots and comes back lets one stamp obtain two tokens. */
  lemma OvershootGrantsTwice(nows: seq<Time>, i: nat, j: nat, k: nat) returns (stamps: seq<Time>)
    requires i < j < k < |nows| && Overshoots(nows[i].sec, nows[j].sec, nows[k].sec)
    ensures |stamps| == |nows| && !GrantsOnce(stamps, nows)
  {
    var latest := if nows[i].sec > nows[k].sec then nows[i].sec else nows[k].sec;
    var t, other := Time(latest - TS_MARGIN + 1, 0), Time(0, 1);
    stamps := seq(|nows|, m => if m == i || m == k then t else other);
    NeverSeen(stamps, nows, 0, i, t);
    FreshMeans(SeenAfter(stamps, nows, i), nows[i], t);
    assert GrantedAt(stamps, nows, i);
    RecordedMeans(SeenAfter(stamps, nows, j), stamps[j], nows[j], t);
    NeverSeen(stamps, nows, j + 1, k, t);
    FreshMeans(SeenAfter(stamps, nows, k), nows[k], t);
    assert GrantedAt(stamps, nows, k);
  }

  /** Whatever stamps are sent, none obtains two tokens: exactly under a steady clock. */
  lemma OnceExactlyWhenSteady(nows: seq<Time>)
    ensures Steady(nows) <==> forall stamps: seq<Time> :: |stamps| == |nows| ==> GrantsOnce(stamps, nows)
  {
    if Steady(nows) {
      forall stamps: seq<Time> | |stamps| == |nows| ensures GrantsOnce(stamps, nows) {
        SteadyGrantsOnce(stamps, nows);
      }
    } else {
      var i, j, k :| 0 <= i < j < k < |nows| && Overshoots(nows[i].sec, nows[j].sec, nows[k].sec);
      var stamps := OvershootGrantsTwice(nows, i, j, k);
    }
  }

  /** A clock that never goes back is steady. */
  lemma MonotoneIsSteady(nows: seq<Time>)
    requires forall i, j :: 0 <= i < j < |nows| ==> nows[i].sec <= nows[j].sec
    ensures Steady(nows)
  {
  }

  /** The stamp 100 is granted at time 100, forgotten at 121 and granted again when the clock is back at 100. */
  lemma SteppedClockReplay()
    ensures var nows, stamps := [Time(100, 0), Time(121, 0), Time(100, 0)], [Time(100, 0), Time(121, 0), Time(100, 0)];
            !Steady(nows) && !GrantsOnce(stamps, nows)
  {
    var nows, stamps := [Time(100, 0), Time(121, 0), Time(100, 0)], [Time(100, 0), Time(121, 0), Time(100, 0)];
    assert Overshoots(nows[0].sec, nows[1].sec, nows[2].sec);
    assert SeenAfter(stamps, nows, 1) == [stamps[0]];
    assert Fresh([stamps[0]], nows[1]) == [];
    assert SeenAfter(stamps, nows, 2) == [stamps[1]];
    assert GrantedAt(stamps, nows, 0);
    assert GrantedAt(stamps, nows, 2);
  }

  // ---------- log-ons within a run of packets ----------

  /** The packet is a log-on whose stamp is looked at. */
  ghost predicate ChecksStamp(d: Desk, utoken: nat, r: Request) {
    TriesLogon(d, utoken, r) && !IsResend(d, utoken, r)
  }

  /** The events of a run that have their stamps looked at. */
  ghost function Logons(utoken: nat, events: seq<Event>): seq<Event> {
    if events == [] then []
    else
      var n := |events| - 1;
      Logons(utoken, events[..n])
      + if ChecksStamp(Run(Start(), utoken, events[..n]), utoken, events[n].request) then [events[n]] else []
  }

  function StampOf(e: Event): Time {
    if e.request.command.Logon? then e.request.command.stamp else Time(0, 0)
  }

  function StampsOf(logons: seq<Event>): (stamps: seq<Time>)
    ensures |stamps| == |logons|
  {
    seq(|logons|, i requires 0 <= i < |logons| => StampOf(logons[i]))
  }

  function NowsOf(logons: seq<Event>): (nows: seq<Time>)
    ensures |nows| == |logons|
  {
    seq(|logons|, i requires 0 <= i < |logons| => logons[i].now)
  }

  lemma {:induction false} SeenOfPrefix(stamps: seq<Time>, nows: seq<Time>, m: nat, i: nat)
    requires i <= m <= |stamps| == |nows|
    ensures SeenAfter(stamps[..m], nows[..m], i) == SeenAfter(stamps, nows, i)
  {
    if i > 0 {
      SeenOfPrefix(stamps, nows, m, i - 1);
    }
  }

  lemma OneMoreStamp(stamps: seq<Time>, nows: seq<Time>, t: Time, now: Time)
    requires |stamps| == |nows|
    ensures SeenAfter(stamps + [t], nows + [now], |stamps| + 1) ==
              Recorded(SeenAfter(stamps, nows, |stamps|), t, now)
  {
    hide Recorded;
    var n := |stamps|;
    assert (stamps + [t])[..n] == stamps && (nows + [now])[..n] == nows;
    SeenOfPrefix(stamps + [t], nows + [now], n, n);
  }

  lemma StampsAppend(logons: seq<Event>, e: Event)
    ensures StampsOf(logons + [e]) == StampsOf(logons) + [StampOf(e)]
    ensures NowsOf(logons + [e]) == NowsOf(logons) + [e.now]
  {
  }

  lemma OneMoreLogon(logons: seq<Event>, e: Event)
    ensures SeenAfter(StampsOf(logons + [e]), NowsOf(logons + [e]), |logons| + 1) ==
              Recorded(SeenAfter(StampsOf(logons), NowsOf(logons), |logons|), StampOf(e), e.now)
  {
    hide SeenAfter, StampsOf, NowsOf, StampOf, Recorded;
    StampsAppend(logons, e);
    OneMoreStamp(StampsOf(logons), NowsOf(logons), StampOf(e), e.now);
  }

  lemma SeenAfterPacket(d: Desk, utoken: nat, r: Request, now: Time)
    ensures Step(d, utoken, r, now).seen ==
              if ChecksStamp(d, utoken, r) then Recorded(d.seen, r.command.stamp, now) else d.seen
    ensures ChecksStamp(d, utoken, r) ==> StampOf(Event(r, now)) == r.command.stamp
  {
  }

  /** The stamps remembered after a run are those of its log-ons. */
  lemma {:induction false} SeenAfterRun(utoken: nat, events: seq<Event>)
    ensures var logons := Logons(utoken, events);
            Run(Start(), utoken, events).seen == SeenAfter(StampsOf(logons), NowsOf(logons), |logons|)
  {
    if events != [] {
      hide ChecksStamp, Step, StampsOf, NowsOf, SeenAfter;
      var n := |events| - 1;
      var d, e := Run(Start(), utoken, events[..n]), events[n];
      SeenAfterRun(utoken, events[..n]);
      SeenAfterPacket(d, utoken, e.request, e.now);
      if ChecksStamp(d, utoken, e.request) {
        OneMoreLogon(Logons(utoken, events[..n]), e);
        assert Logons(utoken, events) == Logons(utoken, events[..n]) + [e];
      } else {
        assert Logons(utoken, events) == Logons(utoken, events[..n]);
      }
    }
  }

  /** Place of event i among the log-ons of a run. */
  lemma {:induction false} LogonAt(utoken: nat, events: seq<Event>, i: nat) returns (m: nat)
    requires i < |events| && ChecksStamp(StateAt(utoken, events, i), utoken, events[i].request)
    ensures m == |Logons(utoken, events[..i])| < |Logons(utoken, events)| && Logons(utoken, events)[m] == events[i]
    ensures Logons(utoken, events)[..m] == Logons(utoken, events[..i])
  {
    hide ChecksStamp, Run;
    var n := |events| - 1;
    m := |Logons(utoken, events[..i])|;
    if i < n {
      assert events[..n][..i] == events[..i];
      var m' := LogonAt(utoken, events[..n], i);
    }
  }

  /** Over any run of packets under a steady clock, no log-on stamp obtains a second token. */
  lemma RunGrantsOnce(utoken: nat, events: seq<Event>, i: nat, k: nat)
    requires i < k < |events| && Steady(NowsOf(Logons(utoken, events)))
    requires LogonOk(StateAt(utoken, events, i), utoken, events[i].request, events[i].now)
    requires LogonOk(StateAt(utoken, events, k), utoken, events[k].request, events[k].now)
    requires !IsResend(StateAt(utoken, events, i), utoken, events[i].request)
    requires !IsResend(StateAt(utoken, events, k), utoken, events[k].request)
    ensures events[i].request.command.stamp != events[k].request.command.stamp
  {
    var logons := Logons(utoken, events);
    var stamps, nows := StampsOf(logons), NowsOf(logons);
    var a := GrantedInRun(utoken, events, i);
    var b := GrantedInRun(utoken, events, k);
    LogonsGrow(utoken, events, i, k);
    SteadyGrantsOnce(stamps, nows);
  }

  lemma GrantedInRun(utoken: nat, events: seq<Event>, i: nat) returns (m: nat)
    requires i < |events| && LogonOk(StateAt(utoken, events, i), utoken, events[i].request, events[i].now)
    requires !IsResend(StateAt(utoken, events, i), utoken, events[i].request)
    ensures m == |Logons(utoken, events[..i])| < |Logons(utoken, events)|
    ensures var logons := Logons(utoken, events);
            && logons[m] == events[i]
            && GrantedAt(StampsOf(logons), NowsOf(logons), m)
  {
    var logons := Logons(utoken, events);
    m := LogonAt(utoken, events, i);
    SeenAfterRun(utoken, events[..i]);
    var stamps, nows := StampsOf(logons), NowsOf(logons);
    assert stamps[..m] == StampsOf(logons[..m]) && nows[..m] == NowsOf(logons[..m]);
    SeenOfPrefix(stamps, nows, m, m);
  }

  lemma {:induction false} LogonsGrow(utoken: nat, events: seq<Event>, i: nat, k: nat)
    requires i < k <= |events| && ChecksStamp(StateAt(utoken, events, i), utoken, events[i].request)
    ensures |Logons(utoken, events[..i])| < |Logons(utoken, events[..k])|
    decreases k
  {
    hide ChecksStamp, Run;
    assert events[..k][..k - 1] == events[..k - 1];
    if i < k - 1 {
      LogonsGrow(utoken, events, i, k - 1);
    }
  }
}
