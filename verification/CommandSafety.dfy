/** What the command protocol guarantees over whole runs of packets. */
module CommandSafety {
  import opened TokenRegisters
  import opened CommandProtocol

  datatype Event = Event(request: Request, now: Time)

  /** The state after a run of packets. */
  ghost function Run(d: Desk, utoken: nat, events: seq<Event>): Desk {
    if events == [] then d
    else
      var last := events[|events| - 1];
      Step(Run(d, utoken, events[..|events| - 1]), utoken, last.request, last.now)
  }

  // ---------- the invariant ----------

  ghost function Toks(r: seq<Reply>): set<nat> { set c | c in r :: c.tok }

  ghost function NextToks(r: seq<Reply>): set<nat> { set c | c in r :: c.nextTok }

  /** Kept replies answer accepted tokens and carry issued, unaccepted ones, each at most once. */
  ghost predicate Orderly(r: seq<Reply>, accepted: set<nat>, next: nat) {
    r == [] ||
    (var c, rest := r[0], r[1..];
     && c.tok in accepted && c.tok !in Toks(rest)
     && 1 <= c.nextTok < next && c.nextTok !in accepted && c.nextTok !in NextToks(rest)
     && c.message.token == c.nextTok
     && Orderly(rest, accepted, next))
  }

  /** Tokens are numbered from 1; one older than the last 32 is settled one way or the other. */
  ghost predicate Settled(next: nat, accepted: set<nat>, evicted: set<nat>) {
    && 1 <= next
    && accepted !! evicted
    && (forall t :: t in accepted ==> 1 <= t < next)
    && (forall t :: t in evicted ==> 1 <= t && t + WINDOW < next)
    && (forall t: nat :: 1 <= t && t + WINDOW < next ==> t in accepted || t in evicted)
  }

  ghost predicate Sound(d: Desk) {
    Settled(d.next, d.accepted, d.evicted) && Orderly(d.replies, d.accepted, d.next)
  }

  // ---------- kept replies ----------

  lemma {:induction false} PurgeShrinks(r: seq<Reply>, token: nat, now: Time)
    ensures Toks(Purge(r, token, now)) <= Toks(r)
    ensures NextToks(Purge(r, token, now)) <= NextToks(r) - {token}
  {
    if r != [] {
      var rest := Purge(r[1..], token, now);
      PurgeShrinks(r[1..], token, now);
      if !Dropped(r[0], token, now) {
        assert Purge(r, token, now) == [r[0]] + rest;
        ToksOfCons(r[0], rest);
      }
      ToksOfCons(r[0], r[1..]);
      assert [r[0]] + r[1..] == r;
    }
  }

  lemma ToksOfCons(c: Reply, r: seq<Reply>)
    ensures Toks([c] + r) == {c.tok} + Toks(r)
    ensures NextToks([c] + r) == {c.nextTok} + NextToks(r)
  {
    var s := [c] + r;
    assert s[0] == c;
    assert forall x :: x in s <==> x == c || x in r;
  }

  /** Accepting a token keeps the remaining replies orderly: the one that carried it is gone. */
  lemma {:induction false} PurgeIsOrderly(r: seq<Reply>, token: nat, now: Time, accepted: set<nat>, next: nat)
    requires Orderly(r, accepted, next)
    ensures Orderly(Purge(r, token, now), accepted + {token}, next)
    ensures token !in accepted ==> token !in Toks(Purge(r, token, now))
  {
    if r == [] {
      assert Toks(r) == {};
    } else {
      hide Toks, NextToks;
      var rest := Purge(r[1..], token, now);
      PurgeIsOrderly(r[1..], token, now, accepted, next);
      PurgeShrinks(r[1..], token, now);
      if !Dropped(r[0], token, now) {
        var s := [r[0]] + rest;
        assert s[0] == r[0] && s[1..] == rest;
        ToksOfCons(r[0], rest);
      }
    }
  }

  lemma {:induction false} RaiseIsOrderly(r: seq<Reply>, i: nat, attempt: nat, accepted: set<nat>, next: nat)
    requires Orderly(r, accepted, next) && i < |r|
    ensures Orderly(Raise(r, i, attempt), accepted, next)
    ensures Toks(Raise(r, i, attempt)) == Toks(r) && NextToks(Raise(r, i, attempt)) == NextToks(r)
  {
    var s, rest := Raise(r, i, attempt), r[1..];
    ToksOfCons(r[0], rest);
    assert [r[0]] + rest == r;
    if i == 0 {
      assert s == [s[0]] + rest;
      ToksOfCons(s[0], rest);
      assert s[1..] == rest;
    } else {
      RaiseIsOrderly(rest, i - 1, attempt, accepted, next);
      assert s[1..] == Raise(rest, i - 1, attempt);
      assert s == [r[0]] + s[1..];
      ToksOfCons(r[0], s[1..]);
    }
  }

  lemma {:induction false} OrderlyGrows(r: seq<Reply>, accepted: set<nat>, next: nat, later: nat)
    requires Orderly(r, accepted, next) && next <= later
    ensures Orderly(r, accepted, later)
    ensures next !in NextToks(r)
  {
    if r != [] {
      OrderlyGrows(r[1..], accepted, next, later);
      ToksOfCons(r[0], r[1..]);
      assert [r[0]] + r[1..] == r;
    }
  }

  // ---------- every packet keeps the invariant ----------

  lemma IssueIsSettled(next: nat, accepted: set<nat>, evicted: set<nat>)
    requires Settled(next, accepted, evicted)
    ensures Settled(next + 1, accepted, evicted + Overdue(next, accepted, evicted))
  {
  }

  lemma AcceptIsSettled(next: nat, accepted: set<nat>, evicted: set<nat>, token: nat)
    requires Settled(next, accepted, evicted) && OutstandingIn(token, next, accepted, evicted)
    ensures Settled(next, accepted + {token}, evicted)
  {
  }

  lemma SaveIsOrderly(d: Desk, r: Request, now: Time, m: Message)
    requires Orderly(d.replies, d.accepted, d.next) && d.next == m.token && r.token in d.accepted
    requires r.token !in Toks(d.replies) && 1 <= d.next && forall t :: t in d.accepted ==> t < d.next
    ensures Orderly(Save(Issue(d), r, now, m).replies, d.accepted, d.next + 1)
  {
    OrderlyGrows(d.replies, d.accepted, d.next, d.next + 1);
    var s := Save(Issue(d), r, now, m).replies;
    assert s[1..] == d.replies;
  }

  lemma AnswerKeepsSound(d: Desk, utoken: nat, r: Request, now: Time)
    requires Sound(d)
    ensures Sound(AfterAnswer(d, utoken, r, now))
  {
    hide Settled, Orderly, Overdue, OutstandingIn, Purge, Recorded, Grants;
    if TokenOk(d, utoken, r) {
      var e := Accept(d, r.token, now);
      AcceptIsSettled(d.next, d.accepted, d.evicted, r.token);
      SettledBounds(d.next, d.accepted, d.evicted, r.token);
      PurgeIsOrderly(d.replies, r.token, now, d.accepted, d.next);
      IssueIsSettled(e.next, e.accepted, e.evicted);
      SettledBounds(e.next, e.accepted, e.evicted, r.token);
      SaveIsOrderly(e, r, now, AnswerTo(d, utoken, r, now));
    } else if LogonOk(d, utoken, r, now) {
      IssueIsSettled(d.next, d.accepted, d.evicted);
      OrderlyGrows(d.replies, d.accepted, d.next, d.next + 1);
    }
  }

  lemma SettledBounds(next: nat, accepted: set<nat>, evicted: set<nat>, token: nat)
    requires Settled(next, accepted, evicted)
    ensures 1 <= next && forall t :: t in accepted ==> t < next
    ensures OutstandingIn(token, next, accepted, evicted) ==> token !in accepted
  {
  }

  lemma StepKeepsSound(d: Desk, utoken: nat, r: Request, now: Time)
    requires Sound(d)
    ensures Sound(Step(d, utoken, r, now))
  {
    hide AfterAnswer, Settled, Orderly, Raise;
    if IsResend(d, utoken, r) {
      RaiseIsOrderly(d.replies, Find(d.replies, r.token, r.sequence, r.attempt), r.attempt, d.accepted, d.next);
    } else {
      AnswerKeepsSound(d, utoken, r, now);
    }
  }

  /** The invariant holds after every run of packets. */
  lemma {:induction false} RunIsSound(utoken: nat, events: seq<Event>)
    ensures Sound(Run(Start(), utoken, events))
  {
    hide Step;
    if events != [] {
      var n := |events| - 1;
      RunIsSound(utoken, events[..n]);
      StepKeepsSound(Run(Start(), utoken, events[..n]), utoken, events[n].request, events[n].now);
    }
  }

  lemma {:induction false} OrderlyIsDistinct(r: seq<Reply>, accepted: set<nat>, next: nat, i: nat, j: nat)
    requires Orderly(r, accepted, next) && i < j < |r|
    ensures r[i].tok != r[j].tok && r[i].nextTok != r[j].nextTok
  {
    if i > 0 {
      OrderlyIsDistinct(r[1..], accepted, next, i - 1, j - 1);
    } else {
      var rest := r[1..];
      assert rest[j - 1] == r[j] && rest[j - 1] in rest;
      assert r[j].tok in Toks(rest) && r[j].nextTok in NextToks(rest);
    }
  }

  lemma {:induction false} OrderlyAt(r: seq<Reply>, accepted: set<nat>, next: nat, i: nat)
    requires Orderly(r, accepted, next) && i < |r|
    ensures r[i].tok in accepted && 1 <= r[i].nextTok < next && r[i].nextTok !in accepted
    ensures r[i].message.token == r[i].nextTok
  {
    if i > 0 {
      OrderlyAt(r[1..], accepted, next, i - 1);
    }
  }

  /** At any point of any run: kept replies answer different accepted tokens and carry different issued
      tokens that nobody has presented yet. */
  lemma KeptRepliesAreDistinct(utoken: nat, events: seq<Event>)
    ensures var d := Run(Start(), utoken, events);
            && (forall i, j :: 0 <= i < j < |d.replies| ==>
                  d.replies[i].tok != d.replies[j].tok && d.replies[i].nextTok != d.replies[j].nextTok)
            && (forall i :: 0 <= i < |d.replies| ==>
                  && d.replies[i].tok in d.accepted
                  && 1 <= d.replies[i].nextTok < d.next && d.replies[i].nextTok !in d.accepted)
  {
    var d := Run(Start(), utoken, events);
    RunIsSound(utoken, events);
    hide Run, Orderly, Settled;
    forall i, j | 0 <= i < j < |d.replies|
      ensures d.replies[i].tok != d.replies[j].tok && d.replies[i].nextTok != d.replies[j].nextTok
    {
      OrderlyIsDistinct(d.replies, d.accepted, d.next, i, j);
    }
    forall i | 0 <= i < |d.replies|
      ensures d.replies[i].tok in d.accepted
      ensures 1 <= d.replies[i].nextTok < d.next && d.replies[i].nextTok !in d.accepted
    {
      OrderlyAt(d.replies, d.accepted, d.next, i);
    }
  }

  // ---------- at most once ----------

  /** A privileged command is carried out for this packet. */
  ghost predicate Executes(d: Desk, utoken: nat, r: Request, now: Time) {
    var o := OutcomeOf(d, utoken, r, now);
    PermissionOf(r.command) == Auth && o.Answered? && o.ran
  }

  lemma ExecutionSpendsToken(d: Desk, utoken: nat, r: Request, now: Time)
    requires Executes(d, utoken, r, now)
    ensures OutstandingIn(r.token, d.next, d.accepted, d.evicted)
    ensures Known(r, utoken)
    ensures r.token in Step(d, utoken, r, now).accepted
  {
    hide Overdue, Purge;
  }

  lemma AcceptedGrows(d: Desk, utoken: nat, r: Request, now: Time)
    ensures d.accepted <= Step(d, utoken, r, now).accepted
    ensures d.evicted <= Step(d, utoken, r, now).evicted && d.next <= Step(d, utoken, r, now).next
  {
    hide Overdue, Purge, Find, Raise, Recorded, Grants, OutstandingIn;
  }

  ghost function StateAt(utoken: nat, events: seq<Event>, i: nat): Desk
    requires i <= |events|
  {
    Run(Start(), utoken, events[..i])
  }

  ghost predicate ExecutesAt(utoken: nat, events: seq<Event>, i: nat)
    requires i < |events|
  {
    Executes(StateAt(utoken, events, i), utoken, events[i].request, events[i].now)
  }

  lemma RunStep(utoken: nat, events: seq<Event>, i: nat)
    requires i < |events|
    ensures StateAt(utoken, events, i + 1) ==
              Step(StateAt(utoken, events, i), utoken, events[i].request, events[i].now)
  {
    hide Step;
    assert events[..i + 1][..i] == events[..i];
  }

  lemma {:induction false} AcceptedStays(utoken: nat, events: seq<Event>, i: nat, j: nat)
    requires i <= j <= |events|
    ensures StateAt(utoken, events, i).accepted <= StateAt(utoken, events, j).accepted
    decreases j - i
  {
    hide StateAt, Step;
    if i < j {
      AcceptedStays(utoken, events, i, j - 1);
      RunStep(utoken, events, j - 1);
      var e := events[j - 1];
      AcceptedGrows(StateAt(utoken, events, j - 1), utoken, e.request, e.now);
    }
  }

  /** Over any run, two privileged commands carried out bear different tokens, however often and
      in whatever order packets are repeated. */
  lemma AtMostOncePerToken(utoken: nat, events: seq<Event>, i: nat, j: nat)
    requires i < j < |events| && ExecutesAt(utoken, events, i) && ExecutesAt(utoken, events, j)
    ensures events[i].request.token != events[j].request.token
  {
    hide StateAt, Step, Executes;
    var e, f := events[i], events[j];
    ExecutionSpendsToken(StateAt(utoken, events, i), utoken, e.request, e.now);
    RunStep(utoken, events, i);
    AcceptedStays(utoken, events, i + 1, j);
    ExecutionSpendsToken(StateAt(utoken, events, j), utoken, f.request, f.now);
  }

  // ---------- resending ----------

  lemma {:induction false} FindIsUnique(r: seq<Reply>, accepted: set<nat>, next: nat, i: nat,
                                        token: nat, sequence: nat, attempt: nat)
    requires Orderly(r, accepted, next) && i < |r| && r[i].tok == token
    ensures Find(r, token, sequence, attempt) == if Matches(r[i], token, sequence, attempt) then i else |r|
  {
    if i > 0 {
      OrderlyIsDistinct(r, accepted, next, 0, i);
      FindIsUnique(r[1..], accepted, next, i - 1, token, sequence, attempt);
    } else if !Matches(r[0], token, sequence, attempt) {
      FindMisses(r[1..], token, sequence, attempt);
    }
  }

  lemma {:induction false} FindMisses(r: seq<Reply>, token: nat, sequence: nat, attempt: nat)
    requires token !in Toks(r)
    ensures Find(r, token, sequence, attempt) == |r|
  {
    if r != [] {
      ToksOfCons(r[0], r[1..]);
      assert [r[0]] + r[1..] == r;
      FindMisses(r[1..], token, sequence, attempt);
    }
  }

  /** A client whose answer was lost asks again with a higher attempt number and receives the very
      same answer; nothing is carried out and only the attempt number is noted. */
  lemma ResendRepeatsAnswer(d: Desk, utoken: nat, r: Request, now: Time, again: Request, later: Time)
    requires Sound(d) && TokenOk(d, utoken, r)
    requires again.authentic && again.utoken == r.utoken && again.token == r.token
    requires again.sequence == r.sequence && again.attempt > r.attempt
    ensures var e := Step(d, utoken, r, now);
            && OutcomeOf(e, utoken, again, later) == Resent(OutcomeOf(d, utoken, r, now).message)
            && Step(e, utoken, again, later) == e.(replies := Raise(e.replies, 0, again.attempt))
  {
    var e := Step(d, utoken, r, now);
    hide Purge, Overdue, Orderly;
    assert r.token in e.accepted;
    assert Matches(e.replies[0], again.token, again.sequence, again.attempt);
  }

  // ---------- resending over whole runs ----------

  lemma {:induction false} PurgeMeans(r: seq<Reply>, token: nat, now: Time, c: Reply)
    ensures c in Purge(r, token, now) <==> c in r && !Dropped(c, token, now)
  {
    if r != [] {
      PurgeMeans(r[1..], token, now, c);
      assert r == [r[0]] + r[1..];
    }
  }

  lemma SameTok(r: seq<Reply>, accepted: set<nat>, next: nat, a: Reply, b: Reply)
    requires Orderly(r, accepted, next) && a in r && b in r && a.tok == b.tok
    ensures a == b
  {
    hide Orderly;
    var i :| 0 <= i < |r| && r[i] == a;
    var j :| 0 <= j < |r| && r[j] == b;
    if i < j {
      OrderlyIsDistinct(r, accepted, next, i, j);
    } else if j < i {
      OrderlyIsDistinct(r, accepted, next, j, i);
    }
  }

  /** The kept reply c after a packet, unless that packet drops it. */
  function Raised(c: Reply, utoken: nat, r: Request): Reply {
    if Known(r, utoken) && Matches(c, r.token, r.sequence, r.attempt) then c.(attempt := r.attempt) else c
  }

  /** A packet that looks a reply up raises the attempt of that reply only. */
  lemma LookupKeepsReply(d: Desk, utoken: nat, r: Request, now: Time, c: Reply)
    requires Sound(d) && c in d.replies && !TokenOk(d, utoken, r)
    ensures Raised(c, utoken, r) in Step(d, utoken, r, now).replies
  {
    var e := Step(d, utoken, r, now);
    hide Settled, Orderly, Recorded, Grants, Overdue, OutstandingIn, Find;
    var q :| 0 <= q < |d.replies| && d.replies[q] == c;
    var f := Find(d.replies, r.token, r.sequence, r.attempt);
    if Known(r, utoken) && c.tok == r.token {
      FindIsUnique(d.replies, d.accepted, d.next, q, r.token, r.sequence, r.attempt);
    }
    if IsResend(d, utoken, r) {
      assert e.replies == Raise(d.replies, f, r.attempt);
      if q == f {
        assert e.replies[f] == Raised(c, utoken, r);
      } else {
        assert e.replies[q] == c == Raised(c, utoken, r);
      }
    } else {
      assert e.replies == d.replies;
    }
  }

  /** A packet whose token is accepted drops the replies it acknowledges or finds too old. */
  lemma AcceptanceKeepsReply(d: Desk, utoken: nat, r: Request, now: Time, c: Reply)
    requires Sound(d) && c in d.replies && TokenOk(d, utoken, r)
    ensures Raised(c, utoken, r) == c
    ensures if Dropped(c, r.token, now)
            then c.tok !in Toks(Step(d, utoken, r, now).replies)
            else c in Step(d, utoken, r, now).replies
  {
    var rest := Purge(d.replies, r.token, now);
    var saved := Reply(r.token, AnswerTo(d, utoken, r, now).token, r.sequence, r.attempt, now, AnswerTo(d, utoken, r, now));
    assert Step(d, utoken, r, now).replies == [saved] + rest;
    var q :| 0 <= q < |d.replies| && d.replies[q] == c;
    OrderlyAt(d.replies, d.accepted, d.next, q);
    SettledBounds(d.next, d.accepted, d.evicted, r.token);
    hide Settled, Orderly, AfterAnswer, Purge, Toks;
    PurgeMeans(d.replies, r.token, now, c);
    ToksOfCons(saved, rest);
    if Dropped(c, r.token, now) && c.tok in Toks(rest) {
      TokIsReplied(rest, c.tok);
      var b :| b in rest && b.tok == c.tok;
      PurgeMeans(d.replies, r.token, now, b);
      SameTok(d.replies, d.accepted, d.next, b, c);
      assert false;
    }
  }

  lemma TokIsReplied(r: seq<Reply>, t: nat)
    ensures t in Toks(r) <==> exists c :: c in r && c.tok == t
  {
  }

  /** A token that no kept reply answers any more is never answered by one again. */
  lemma GoneStaysGone(d: Desk, utoken: nat, r: Request, now: Time, t: nat)
    requires Sound(d) && t in d.accepted && t !in Toks(d.replies)
    ensures t !in Toks(Step(d, utoken, r, now).replies)
  {
    hide Toks, Recorded, Grants, Overdue, Purge;
    SettledBounds(d.next, d.accepted, d.evicted, r.token);
    if IsResend(d, utoken, r) {
      RaiseIsOrderly(d.replies, Find(d.replies, r.token, r.sequence, r.attempt), r.attempt, d.accepted, d.next);
    } else if TokenOk(d, utoken, r) {
      var m := AnswerTo(d, utoken, r, now);
      PurgeShrinks(d.replies, r.token, now);
      ToksOfCons(Reply(r.token, m.token, r.sequence, r.attempt, now, m), Purge(d.replies, r.token, now));
    }
  }

  /** The token of event i is accepted. */
  ghost predicate AcceptsAt(utoken: nat, events: seq<Event>, i: nat)
    requires i < |events|
  {
    TokenOk(StateAt(utoken, events, i), utoken, events[i].request)
  }

  ghost function AnswerAt(utoken: nat, events: seq<Event>, i: nat): Message
    requires i < |events|
  {
    AnswerTo(StateAt(utoken, events, i), utoken, events[i].request, events[i].now)
  }

  /** A later event asks for the answer to event i. */
  predicate AsksAgain(utoken: nat, first: Request, again: Request) {
    Known(again, utoken) && again.token == first.token && again.sequence == first.sequence
  }

  /** The highest attempt with which the answer to event i was asked for before event j. */
  function HighestAttempt(utoken: nat, events: seq<Event>, i: nat, j: nat): nat
    requires i < j <= |events|
    decreases j
  {
    if j == i + 1 then events[i].request.attempt
    else
      var highest, again := HighestAttempt(utoken, events, i, j - 1), events[j - 1].request;
      if AsksAgain(utoken, events[i].request, again) && again.attempt > highest then again.attempt else highest
  }

  /** Between events i and j nobody presented the token the answer carried, and no token was
      accepted more than REPLY_MAXAGE seconds after the answer. */
  ghost predicate Undisturbed(utoken: nat, events: seq<Event>, i: nat, j: nat)
    requires i < j <= |events|
  {
    forall k :: i < k < j && AcceptsAt(utoken, events, k) ==>
      && events[k].request.token != AnswerAt(utoken, events, i).token
      && events[k].now.sec - events[i].now.sec <= REPLY_MAXAGE
  }

  /** What is kept of the answer to event i when event j arrives. */
  ghost function ReplyTo(utoken: nat, events: seq<Event>, i: nat, j: nat): Reply
    requires i < j <= |events|
  {
    var m := AnswerAt(utoken, events, i);
    var r := events[i].request;
    Reply(r.token, m.token, r.sequence, HighestAttempt(utoken, events, i, j), events[i].now, m)
  }

  lemma AnswerIsSaved(utoken: nat, events: seq<Event>, i: nat)
    requires i < |events| && AcceptsAt(utoken, events, i)
    ensures KeepsReply(StateAt(utoken, events, i + 1), ReplyTo(utoken, events, i, i + 1), true)
    ensures Undisturbed(utoken, events, i, i + 1)
  {
    var d, r := StateAt(utoken, events, i), events[i].request;
    RunStep(utoken, events, i);
    hide StateAt, Purge, Overdue, OutstandingIn;
    assert Step(d, utoken, r, events[i].now).replies[0] == ReplyTo(utoken, events, i, i + 1);
  }

  /** The accepted token that c answers, and c itself when it is kept; otherwise no reply answers it. */
  ghost predicate KeepsReply(d: Desk, c: Reply, kept: bool) {
    c.tok in d.accepted && if kept then c in d.replies else c.tok !in Toks(d.replies)
  }

  lemma ReplyAfterPacket(d: Desk, utoken: nat, r: Request, now: Time, c: Reply, kept: bool)
    requires Sound(d) && KeepsReply(d, c, kept)
    ensures KeepsReply(Step(d, utoken, r, now), Raised(c, utoken, r),
                       kept && !(TokenOk(d, utoken, r) && Dropped(c, r.token, now)))
  {
    AcceptedGrows(d, utoken, r, now);
    hide Sound, Step, Toks, Dropped;
    if !kept {
      GoneStaysGone(d, utoken, r, now, c.tok);
    } else if TokenOk(d, utoken, r) {
      AcceptanceKeepsReply(d, utoken, r, now, c);
    } else {
      LookupKeepsReply(d, utoken, r, now, c);
    }
  }

  /** One more event between an answer and the request for it. */
  lemma OneMoreEvent(utoken: nat, events: seq<Event>, i: nat, k: nat)
    requires i < k < |events|
    ensures var c, r := ReplyTo(utoken, events, i, k), events[k].request;
            && ReplyTo(utoken, events, i, k + 1) == Raised(c, utoken, r)
            && (Undisturbed(utoken, events, i, k + 1) <==>
                Undisturbed(utoken, events, i, k)
                && !(AcceptsAt(utoken, events, k) && Dropped(c, r.token, events[k].now)))
  {
    hide AcceptsAt, AnswerAt;
  }

  lemma ReplyAfterEvent(utoken: nat, events: seq<Event>, i: nat, k: nat)
    requires i < k < |events|
    requires KeepsReply(StateAt(utoken, events, k), ReplyTo(utoken, events, i, k), Undisturbed(utoken, events, i, k))
    ensures KeepsReply(StateAt(utoken, events, k + 1), ReplyTo(utoken, events, i, k + 1), Undisturbed(utoken, events, i, k + 1))
  {
    hide StateAt, Step, TokenOk, Sound, KeepsReply, ReplyTo, Undisturbed, Raised, Dropped;
    var d, e := StateAt(utoken, events, k), events[k];
    StateIsSound(utoken, events, k);
    RunStep(utoken, events, k);
    OneMoreEvent(utoken, events, i, k);
    ReplyAfterPacket(d, utoken, e.request, e.now, ReplyTo(utoken, events, i, k), Undisturbed(utoken, events, i, k));
  }

  /** The answer is kept exactly while it is undisturbed; afterwards it is gone for good. */
  lemma {:induction false} ReplyIsKeptExactlyWhile(utoken: nat, events: seq<Event>, i: nat, j: nat)
    requires i < j <= |events| && AcceptsAt(utoken, events, i)
    ensures KeepsReply(StateAt(utoken, events, j), ReplyTo(utoken, events, i, j), Undisturbed(utoken, events, i, j))
    decreases j
  {
    hide StateAt, AcceptsAt, KeepsReply, ReplyTo, Undisturbed;
    if j == i + 1 {
      AnswerIsSaved(utoken, events, i);
    } else {
      ReplyIsKeptExactlyWhile(utoken, events, i, j - 1);
      ReplyAfterEvent(utoken, events, i, j - 1);
    }
  }

  lemma StateIsSound(utoken: nat, events: seq<Event>, i: nat)
    requires i <= |events|
    ensures Sound(StateAt(utoken, events, i))
  {
    RunIsSound(utoken, events[..i]);
  }

  /** Over any run, whatever other packets come between: a client that asks again for an answer gets
      the very same message exactly when the answer is undisturbed and the attempt is higher than
      any before; and in no case is the command carried out again. */
  lemma AnswerIsRepeatedExactlyWhen(utoken: nat, events: seq<Event>, i: nat, j: nat)
    requires i < j < |events| && AcceptsAt(utoken, events, i)
    requires AsksAgain(utoken, events[i].request, events[j].request)
    ensures var d, again := StateAt(utoken, events, j), events[j].request;
            && (OutcomeOf(d, utoken, again, events[j].now) == Resent(AnswerAt(utoken, events, i)) <==>
                Undisturbed(utoken, events, i, j) && again.attempt > HighestAttempt(utoken, events, i, j))
            && (IsResend(d, utoken, again) <==>
                Undisturbed(utoken, events, i, j) && again.attempt > HighestAttempt(utoken, events, i, j))
            && !TokenOk(d, utoken, again) && !ExecutesAt(utoken, events, j)
  {
    var d, again := StateAt(utoken, events, j), events[j].request;
    ReplyIsKeptExactlyWhile(utoken, events, i, j);
    StateIsSound(utoken, events, j);
    SettledBounds(d.next, d.accepted, d.evicted, again.token);
    hide StateAt, Undisturbed, HighestAttempt, AnswerAt, Orderly, Toks, Find, Settled;
    if Undisturbed(utoken, events, i, j) {
      var c := ReplyTo(utoken, events, i, j);
      var q :| 0 <= q < |d.replies| && d.replies[q] == c;
      FindIsUnique(d.replies, d.accepted, d.next, q, again.token, again.sequence, again.attempt);
    } else {
      FindMisses(d.replies, again.token, again.sequence, again.attempt);
    }
  }

  /** Replaying a resent packet gains nothing: its attempt number is no longer new. */
  lemma ReplayOfResendIsRefused(d: Desk, utoken: nat, r: Request, now: Time, later: Time)
    requires Sound(d) && IsResend(d, utoken, r)
    ensures !IsResend(Step(d, utoken, r, now), utoken, r)
    ensures !Executes(Step(d, utoken, r, now), utoken, r, later)
  {
    var i := Find(d.replies, r.token, r.sequence, r.attempt);
    var e := Step(d, utoken, r, now);
    RaiseIsOrderly(d.replies, i, r.attempt, d.accepted, d.next);
    assert e.replies[i].attempt == r.attempt;
    hide Orderly, Settled, Find;
    FindIsUnique(e.replies, d.accepted, d.next, i, r.token, r.sequence, r.attempt);
  }

  /** Once the client presents the token an answer carried, that answer is no longer kept. */
  lemma AcknowledgedReplyIsDropped(d: Desk, utoken: nat, r: Request, now: Time)
    requires Sound(d) && TokenOk(d, utoken, r)
    ensures r.token !in NextToks(Step(d, utoken, r, now).replies)
  {
    PurgeShrinks(d.replies, r.token, now);
    var e := Accept(d, r.token, now);
    var m := AnswerTo(d, utoken, r, now);
    ToksOfCons(Reply(r.token, m.token, r.sequence, r.attempt, now, m), e.replies);
    hide Purge, Overdue, Orderly;
  }

  /** A token handed out stays good until it is presented or 32 more have been handed out. */
  lemma TokenStaysGood(d: Desk, utoken: nat, r: Request, now: Time, t: nat)
    requires Sound(d) && OutstandingIn(t, d.next, d.accepted, d.evicted)
    ensures var e := Step(d, utoken, r, now);
            || OutstandingIn(t, e.next, e.accepted, e.evicted)
            || (t in e.accepted && TokenOk(d, utoken, r) && r.token == t)
            || (t in e.evicted && e.next == t + WINDOW + 1)
  {
    hide Purge, Find, Raise, Recorded, Grants, Orderly;
  }
}
