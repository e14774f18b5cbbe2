/** The retransmission protocol of cmdmon.c: tokens, kept replies and log-on time stamps. */
module CommandProtocol {
  import opened TokenRegisters

  const TS_MARGIN := 20
  const REPLY_MAXAGE := 300
  const SPECIAL_UTOKEN: nat := 0x10101010
  const NO_TOKEN: nat := 0xffffffff

  datatype Time = Time(sec: int, usec: int)

  datatype Permission = Open | Local | Auth

  /** A command; result is what its handler answers if it is run. */
  datatype Command = Logon(stamp: Time) | Other(permission: Permission, result: int)

  /** A well-formed packet from a permitted host; authentic says that its digest checks. */
  datatype Request = Request(authentic: bool, utoken: nat, token: nat, sequence: nat, attempt: nat,
                             command: Command, localhost: bool)

  datatype Status = Success | Unauth | InvalidTs | Failed | Result(value: int)

  datatype Message = Message(token: nat, status: Status)

  /** A kept reply sent again, or a new answer; ran says whether the command was carried out. */
  datatype Outcome = Resent(message: Message) | Answered(message: Message, ran: bool)

  /** One kept reply: the token it answered, the token it carried, and the last attempt seen. */
  datatype Reply = Reply(tok: nat, nextTok: nat, sequence: nat, attempt: nat, ts: Time, message: Message)

  // ---------- kept replies ----------

  predicate Matches(c: Reply, token: nat, sequence: nat, attempt: nat) {
    c.tok == token && c.sequence == sequence && attempt > c.attempt
  }

  /** Index of the reply a resent request asks for, or the length of the list. */
  function Find(r: seq<Reply>, token: nat, sequence: nat, attempt: nat): (i: nat)
    ensures i <= |r|
    ensures i < |r| ==> Matches(r[i], token, sequence, attempt)
  {
    if r == [] then 0
    else if Matches(r[0], token, sequence, attempt) then 0
    else 1 + Find(r[1..], token, sequence, attempt)
  }

  predicate Dropped(c: Reply, token: nat, now: Time) {
    c.nextTok == token || now.sec - c.ts.sec > REPLY_MAXAGE
  }

  /** The replies that survive the acceptance of a token. */
  function Purge(r: seq<Reply>, token: nat, now: Time): seq<Reply> {
    if r == [] then []
    else
      var rest := Purge(r[1..], token, now);
      if Dropped(r[0], token, now) then rest else [r[0]] + rest
  }

  // ---------- log-on time stamps ----------

  predicate Stale(t: Time, now: Time) { now.sec - t.sec > TS_MARGIN }

  predicate Within(t: Time, now: Time) { -TS_MARGIN < now.sec - t.sec < TS_MARGIN }

  /** The stamps of the list that are not stale, in order. */
  function Fresh(seen: seq<Time>, now: Time): seq<Time> {
    if seen == [] then []
    else
      var rest := Fresh(seen[1..], now);
      if Stale(seen[0], now) then rest else [seen[0]] + rest
  }

  predicate Unique(seen: seq<Time>, t: Time, now: Time) { t !in Fresh(seen, now) }

  /** The list afterwards: a stamp is remembered even when it is itself out of the margin. */
  function Recorded(seen: seq<Time>, t: Time, now: Time): seq<Time> {
    if Unique(seen, t, now) then Fresh(seen, now) + [t] else Fresh(seen, now)
  }

  predicate Grants(seen: seq<Time>, t: Time, now: Time) {
    Within(t, now) && Unique(seen, t, now)
  }

  // ---------- one packet ----------

  /** All the daemon remembers, with every token that was ever accepted or evicted. */
  datatype Desk = Desk(next: nat, accepted: set<nat>, evicted: set<nat>, replies: seq<Reply>, seen: seq<Time>)

  function Start(): Desk { Desk(1, {}, {}, [], []) }

  predicate AuthOk(r: Request) { r.utoken != 0 && r.authentic }

  predicate Known(r: Request, utoken: nat) { AuthOk(r) && r.utoken == utoken }

  ghost predicate TokenOk(d: Desk, utoken: nat, r: Request) {
    Known(r, utoken) && OutstandingIn(r.token, d.next, d.accepted, d.evicted)
  }

  ghost predicate IsResend(d: Desk, utoken: nat, r: Request) {
    Known(r, utoken) && !TokenOk(d, utoken, r) && Find(d.replies, r.token, r.sequence, r.attempt) < |d.replies|
  }

  ghost predicate TriesLogon(d: Desk, utoken: nat, r: Request) {
    AuthOk(r) && !TokenOk(d, utoken, r) && r.utoken == SPECIAL_UTOKEN && r.command.Logon?
  }

  ghost predicate LogonOk(d: Desk, utoken: nat, r: Request, now: Time) {
    TriesLogon(d, utoken, r) && Grants(d.seen, r.command.stamp, now)
  }

  ghost predicate Issues(d: Desk, utoken: nat, r: Request, now: Time) {
    TokenOk(d, utoken, r) || LogonOk(d, utoken, r, now)
  }

  function PermissionOf(c: Command): Permission {
    if c.Logon? then Open else c.permission
  }

  /** Whether a command may be carried out for this client. */
  predicate MayRun(p: Permission, authenticated: bool, localhost: bool) {
    match p
    case Auth => authenticated
    case Local => authenticated || localhost
    case Open => true
  }

  function StatusOf(r: Request, authenticated: bool, issued: bool, validTs: bool): Status {
    if !MayRun(PermissionOf(r.command), authenticated, r.localhost) then Unauth
    else if r.command.Other? then Result(r.command.result)
    else if issued then Success
    else if !AuthOk(r) then Unauth
    else if !validTs then InvalidTs
    else Failed
  }

  /** The token carried by the answer. */
  ghost function TokenIssued(d: Desk, utoken: nat, r: Request, now: Time): nat {
    if Issues(d, utoken, r, now) then d.next else NO_TOKEN
  }

  ghost function AnswerTo(d: Desk, utoken: nat, r: Request, now: Time): Message {
    Message(TokenIssued(d, utoken, r, now),
            StatusOf(r, TokenOk(d, utoken, r), Issues(d, utoken, r, now), LogonOk(d, utoken, r, now)))
  }

  ghost function OutcomeOf(d: Desk, utoken: nat, r: Request, now: Time): Outcome {
    if IsResend(d, utoken, r) then Resent(d.replies[Find(d.replies, r.token, r.sequence, r.attempt)].message)
    else Answered(AnswerTo(d, utoken, r, now),
                  MayRun(PermissionOf(r.command), TokenOk(d, utoken, r), r.localhost))
  }

  /** Accepting a token settles it and drops the reply that carried it. */
  ghost function Accept(d: Desk, token: nat, now: Time): Desk {
    d.(accepted := d.accepted + {token}, replies := Purge(d.replies, token, now))
  }

  ghost function Issue(d: Desk): Desk {
    d.(next := d.next + 1, evicted := d.evicted + Overdue(d.next, d.accepted, d.evicted))
  }

  function Raise(replies: seq<Reply>, i: nat, attempt: nat): seq<Reply>
    requires i < |replies|
  {
    replies[i := replies[i].(attempt := attempt)]
  }

  ghost function Save(d: Desk, r: Request, now: Time, m: Message): Desk {
    d.(replies := [Reply(r.token, m.token, r.sequence, r.attempt, now, m)] + d.replies)
  }

  /** What an answered packet leaves behind. */
  ghost function AfterAnswer(d: Desk, utoken: nat, r: Request, now: Time): Desk {
    if TokenOk(d, utoken, r) then Save(Issue(Accept(d, r.token, now)), r, now, AnswerTo(d, utoken, r, now))
    else
      var e := if TriesLogon(d, utoken, r) then d.(seen := Recorded(d.seen, r.command.stamp, now)) else d;
      if LogonOk(d, utoken, r, now) then Issue(e) else e
  }

  ghost function Step(d: Desk, utoken: nat, r: Request, now: Time): Desk {
    if IsResend(d, utoken, r)
    then d.(replies := Raise(d.replies, Find(d.replies, r.token, r.sequence, r.attempt), r.attempt))
    else AfterAnswer(d, utoken, r, now)
  }

  // ---------- the daemon's side ----------

  class Server {
    const utoken: nat
    const registers: Registers
    var replies: seq<Reply>
    var seen: seq<Time>

    ghost predicate Valid()
      reads this, registers
    {
      registers.Valid()
    }

    ghost function State(): Desk
      reads this, registers
    {
      Desk(registers.Next(), registers.accepted, registers.evicted, replies, seen)
    }

    constructor (utoken: nat)
      ensures Valid() && fresh(registers) && this.utoken == utoken && State() == Start()
    {
      this.utoken := utoken;
      registers := new Registers();
      replies, seen := [], [];
    }

    /** check_unique_ts: the stale stamps leave the list, a new one joins it. */
    method CheckUniqueTs(t: Time, now: Time) returns (ok: bool)
      modifies `seen
      ensures ok == Unique(old(seen), t, now)
      ensures seen == Recorded(old(seen), t, now)
    {
      ok := true;
      var valid, i := [], 0;
      while i < |seen|
        invariant i <= |seen| && seen == old(seen)
        invariant valid + Fresh(seen[i..], now) == Fresh(seen, now)
        invariant ok <==> t !in valid
      {
        assert seen[i..][1..] == seen[i + 1..];
        if !Stale(seen[i], now) {
          valid := valid + [seen[i]];
          if seen[i] == t {
            ok := false;
          }
        }
        i := i + 1;
      }
      assert valid == Fresh(seen, now);
      seen := if ok then valid + [t] else valid;
    }

    /** ts_is_unique_and_not_stale. */
    method TsIsUniqueAndNotStale(t: Time, now: Time) returns (ok: bool)
      modifies `seen
      ensures ok == Grants(old(seen), t, now)
      ensures seen == Recorded(old(seen), t, now)
    {
      var diff := now.sec - t.sec;
      var within := diff < TS_MARGIN && diff > -TS_MARGIN;
      var unique := CheckUniqueTs(t, now);
      ok := within && unique;
    }

    /** lookup_reply: the attempt number of the reply found is raised to the one in the packet. */
    method LookupReply(token: nat, sequence: nat, attempt: nat) returns (found: bool, message: Message)
      modifies `replies
      ensures var i := Find(old(replies), token, sequence, attempt);
              if i < |old(replies)|
              then found && message == old(replies)[i].message && replies == Raise(old(replies), i, attempt)
              else !found && replies == old(replies)
    {
      var i := 0;
      message := Message(NO_TOKEN, Unauth);
      while i < |replies|
        invariant i <= |replies| && replies == old(replies)
        invariant Find(replies, token, sequence, attempt) == i + Find(replies[i..], token, sequence, attempt)
      {
        assert replies[i..][1..] == replies[i + 1..];
        if Matches(replies[i], token, sequence, attempt) {
          message := replies[i].message;
          replies := replies[i := replies[i].(attempt := attempt)];
          return true, message;
        }
        i := i + 1;
      }
      found := false;
    }

    /** token_acknowledged. */
    method TokenAcknowledged(token: nat, now: Time)
      modifies `replies
      ensures replies == Purge(old(replies), token, now)
    {
      var valid, i := [], 0;
      while i < |replies|
        invariant i <= |replies| && replies == old(replies)
        invariant valid + Purge(replies[i..], token, now) == Purge(replies, token, now)
      {
        assert replies[i..][1..] == replies[i + 1..];
        if !Dropped(replies[i], token, now) {
          valid := valid + [replies[i]];
        }
        i := i + 1;
      }
      assert valid == Purge(replies, token, now);
      replies := valid;
    }

    /** save_reply. */
    method SaveReply(message: Message, token: nat, sequence: nat, attempt: nat, now: Time)
      modifies `replies
      ensures replies == [Reply(token, message.token, sequence, attempt, now, message)] + old(replies)
    {
      replies := [Reply(token, message.token, sequence, attempt, now, message)] + replies;
    }

    /** read_from_cmd_socket, once the packet is well formed and its sender permitted. */
    method Receive(r: Request, now: Time) returns (outcome: Outcome)
      requires Valid()
      modifies this, registers
      ensures Valid()
      ensures outcome == OutcomeOf(old(State()), utoken, r, now)
      ensures State() == Step(old(State()), utoken, r, now)
    {
      hide Find, Purge, Fresh, Raise, Recorded, Grants, OutstandingIn, Overdue;
      var authOk := r.utoken != 0 && r.authentic;
      var utokenOk := r.utoken == utoken;
      var tokenOk := false;
      if authOk && utokenOk {
        tokenOk := registers.CheckToken(r.token);
      }
      if authOk && utokenOk && !tokenOk {
        var found, message := LookupReply(r.token, r.sequence, r.attempt);
        if found {
          return Resent(message);
        }
      }
      if authOk && utokenOk && tokenOk {
        TokenAcknowledged(r.token, now);
      }
      var validTs, issue := false, false;
      if authOk {
        if utokenOk && tokenOk {
          issue := true;
        } else if r.utoken == SPECIAL_UTOKEN && r.command.Logon? {
          validTs := TsIsUniqueAndNotStale(r.command.stamp, now);
          issue := validTs;
        }
      }
      var authenticated := authOk && utokenOk && tokenOk;
      var token := NO_TOKEN;
      if issue {
        token := registers.GetToken();
      }
      var ran := MayRun(PermissionOf(r.command), authenticated, r.localhost);
      var message := Message(token, StatusOf(r, authenticated, issue, validTs));
      if tokenOk {
        SaveReply(message, r.token, r.sequence, r.attempt, now);
      }
      outcome := Answered(message, ran);
    }
  }
}
