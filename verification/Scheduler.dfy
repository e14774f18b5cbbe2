/** The timer queue and the file-descriptor set of sched.c. Times are exact seconds. */
module Scheduler {

  const N_CLASSES: nat := 3
  const RESERVED: nat := 0

  /** One queue entry; task stands for the handler and its argument. */
  datatype Entry = Entry(tv: real, id: nat, cls: nat, task: int)

  type Queue = seq<Entry>

  // ---------- order ----------

  /** Expiry first, then age. */
  predicate Before(a: Entry, b: Entry) {
    a.tv < b.tv || (a.tv == b.tv && a.id < b.id)
  }

  ghost predicate Ordered(q: Queue) {
    forall i, j :: 0 <= i < j < |q| ==> Before(q[i], q[j])
  }

  ghost predicate IdsBelow(q: Queue, next: nat) {
    forall i :: 0 <= i < |q| ==> q[i].id < next
  }

  ghost predicate UniqueIds(q: Queue) {
    forall i, j :: 0 <= i < j < |q| ==> q[i].id != q[j].id
  }

  /** Entries of one class are a distance apart. */
  ghost predicate Separate(q: Queue, cls: nat, gap: real) {
    forall i, j :: 0 <= i < j < |q| && q[i].cls == cls && q[j].cls == cls ==> q[j].tv - q[i].tv >= gap
  }

  /** Where an entry expiring at tv goes: before the first later one. */
  function Position(q: Queue, tv: real): (p: nat)
    ensures p <= |q|
  {
    if q == [] || tv < q[0].tv then 0 else 1 + Position(q[1..], tv)
  }

  function Insert(q: Queue, e: Entry): Queue {
    q[..Position(q, e.tv)] + [e] + q[Position(q, e.tv)..]
  }

  lemma {:induction false} PositionSplits(q: Queue, tv: real)
    requires Ordered(q)
    ensures forall i :: 0 <= i < Position(q, tv) ==> q[i].tv <= tv
    ensures forall i :: Position(q, tv) <= i < |q| ==> tv < q[i].tv
  {
    if q != [] {
      if tv < q[0].tv {
        assert forall i :: 0 < i < |q| ==> Before(q[0], q[i]);
      } else {
        PositionSplits(q[1..], tv);
        forall i | 1 <= i < |q| ensures q[i] == q[1..][i - 1] {
        }
      }
    }
  }

  lemma InsertOrder(q: Queue, e: Entry, p: nat)
    requires Ordered(q) && IdsBelow(q, e.id) && p <= |q|
    requires forall i :: 0 <= i < p ==> q[i].tv <= e.tv
    requires forall i :: p <= i < |q| ==> e.tv < q[i].tv
    ensures Ordered(q[..p] + [e] + q[p..])
  {
    var r := q[..p] + [e] + q[p..];
    forall i, j | 0 <= i < j < |r| ensures Before(r[i], r[j]) {
      if i == p {
        assert r[j] == q[j - 1];
      } else if j == p {
        assert r[i] == q[i];
      } else {
        assert Before(q[if i < p then i else i - 1], q[if j < p then j else j - 1]);
      }
    }
  }

  lemma InsertIds(q: Queue, e: Entry, p: nat)
    requires UniqueIds(q) && IdsBelow(q, e.id) && p <= |q|
    ensures UniqueIds(q[..p] + [e] + q[p..]) && IdsBelow(q[..p] + [e] + q[p..], e.id + 1)
  {
    var r := q[..p] + [e] + q[p..];
    forall i | 0 <= i < |r| ensures i == p || r[i] == q[if i < p then i else i - 1] {
    }
  }

  /** A new entry joins behind those that expire no later: first in, first out at ties. */
  lemma InsertIsOrdered(q: Queue, e: Entry)
    requires Ordered(q) && UniqueIds(q) && IdsBelow(q, e.id)
    ensures Ordered(Insert(q, e)) && UniqueIds(Insert(q, e)) && IdsBelow(Insert(q, e), e.id + 1)
    ensures multiset(Insert(q, e)) == multiset(q) + multiset{e}
  {
    PositionSplits(q, e.tv);
    var p := Position(q, e.tv);
    hide Ordered, UniqueIds, IdsBelow, Position;
    InsertOrder(q, e, p);
    InsertIds(q, e, p);
    assert q == q[..p] + q[p..];
  }

  // ---------- separation ----------

  /** Expiring at t keeps clear of all pending entries of the class. */
  ghost predicate Clear(q: Queue, cls: nat, separation: real, t: real) {
    forall i :: 0 <= i < |q| && q[i].cls == cls ==> t - q[i].tv >= separation || q[i].tv - t >= separation
  }

  /** One entry pushes a delay that comes too close to it to its far side. */
  function Push(e: Entry, cls: nat, separation: real, now: real, delay: real): real {
    var diff := e.tv - now;
    if e.cls == cls && (if delay > diff then delay - diff < separation else diff - delay < separation)
    then diff + separation
    else delay
  }

  /** The scan of the queue. */
  function Scan(q: Queue, cls: nat, separation: real, now: real, delay: real): real {
    if q == [] then delay
    else Push(q[|q| - 1], cls, separation, now, Scan(q[..|q| - 1], cls, separation, now, delay))
  }

  /** The scan keeps clear of the class and never shortens the delay. */
  lemma {:induction false} ScanIsClear(q: Queue, cls: nat, separation: real, now: real, delay: real)
    requires Ordered(q) && separation >= 0.0
    ensures Scan(q, cls, separation, now, delay) >= delay
    ensures Clear(q, cls, separation, now + Scan(q, cls, separation, now, delay))
  {
    if q != [] {
      var n := |q| - 1;
      var s, e := q[..n], q[n];
      ScanIsClear(s, cls, separation, now, delay);
      var m := Scan(s, cls, separation, now, delay);
      var m' := Push(e, cls, separation, now, m);
      forall i | 0 <= i < n && q[i].cls == cls
        ensures now + m' - q[i].tv >= separation || q[i].tv - (now + m') >= separation
      {
        assert s[i] == q[i];
        assert Before(q[i], e);
      }
    }
  }

  /** No smaller admissible delay keeps clear of the class. */
  lemma {:induction false} ScanIsLeast(q: Queue, cls: nat, separation: real, now: real, delay: real, v: real)
    requires v >= delay && Clear(q, cls, separation, now + v)
    ensures v >= Scan(q, cls, separation, now, delay)
  {
    if q != [] {
      var n := |q| - 1;
      assert forall i :: 0 <= i < n ==> q[..n][i] == q[i];
      ScanIsLeast(q[..n], cls, separation, now, delay, v);
      assert q[n].cls == cls ==> now + v - q[n].tv >= separation || q[n].tv - (now + v) >= separation;
    }
  }

  /** The delay the last dispatch of the class asks for. */
  function StartDelay(delay: real, separation: real, now: real, last: real): real {
    var diff := now - last;
    if diff < separation && diff >= 0.0 && diff + delay < separation then separation - diff else delay
  }

  lemma InsertSeparate(q: Queue, e: Entry, cls: nat, gap: real, separation: real)
    requires Ordered(q) && Separate(q, cls, gap) && gap <= separation
    requires e.cls == cls ==> Clear(q, cls, separation, e.tv)
    ensures 0.0 <= gap ==> Separate(Insert(q, e), cls, gap)
  {
    PositionSplits(q, e.tv);
    var p := Position(q, e.tv);
    hide Position;
    var r := q[..p] + [e] + q[p..];
    assert Insert(q, e) == r;
    if 0.0 <= gap {
      forall i, j | 0 <= i < j < |r| && r[i].cls == cls && r[j].cls == cls ensures r[j].tv - r[i].tv >= gap {
        var i' := if i < p then i else i - 1;
        var j' := if j < p then j else j - 1;
        if i != p && j != p {
          assert r[i] == q[i'] && r[j] == q[j'];
        } else if i == p {
          assert r[j] == q[j'];
        } else {
          assert r[i] == q[i'];
        }
      }
    }
  }

  // ---------- the scheduler ----------

  datatype Option<T> = None | Some(value: T)

  /** Index of the entry with an id, or the length of the queue. */
  function IndexOf(q: Queue, id: nat): (i: nat)
    ensures i <= |q|
    ensures i < |q| ==> q[i].id == id
    ensures forall j :: 0 <= j < i ==> q[j].id != id
  {
    if q == [] || q[0].id == id then 0 else 1 + IndexOf(q[1..], id)
  }

  function Without(q: Queue, id: nat): Queue {
    var i := IndexOf(q, id);
    if i < |q| then q[..i] + q[i + 1..] else q
  }

  function Shift(q: Queue, offset: real): Queue {
    seq(|q|, i requires 0 <= i < |q| => q[i].(tv := q[i].tv - offset))
  }

  /** Everything the module keeps. */
  datatype State = State(queue: Queue, nextId: nat, lastDispatch: seq<real>)

  predicate WellTyped(s: State) { |s.lastDispatch| == N_CLASSES }

  function AddAt(s: State, tv: real, cls: nat, task: int): State {
    s.(queue := Insert(s.queue, Entry(tv, s.nextId, cls, task)), nextId := s.nextId + 1)
  }

  /** The delay SCH_AddTimeoutInClass settles on. */
  function ClassDelay(s: State, now: real, delay: real, separation: real, cls: nat): real
    requires WellTyped(s) && cls < N_CLASSES
  {
    Scan(s.queue, cls, separation, now, StartDelay(delay, separation, now, s.lastDispatch[cls]))
  }

  function AddInClass(s: State, now: real, delay: real, separation: real, cls: nat, task: int): State
    requires WellTyped(s) && cls < N_CLASSES
  {
    AddAt(s, now + ClassDelay(s, now, delay, separation, cls), cls, task)
  }

  predicate Due(s: State, now: real) {
    s.queue != [] && now >= s.queue[0].tv
  }

  function Dispatched(s: State, now: real): State
    requires WellTyped(s) && Due(s, now) && s.queue[0].cls < N_CLASSES
  {
    s.(queue := s.queue[1..], lastDispatch := s.lastDispatch[s.queue[0].cls := now])
  }

  function ShiftTimes(times: seq<real>, offset: real): seq<real> {
    seq(|times|, i requires 0 <= i < |times| => times[i] - offset)
  }

  function Stepped(s: State, offset: real): State
    requires WellTyped(s)
  {
    s.(queue := Shift(s.queue, offset), lastDispatch := ShiftTimes(s.lastDispatch, offset))
  }

  /** The queue is in order, ids are fresh and different, classes exist. */
  ghost predicate Sound(s: State) {
    && WellTyped(s) && Ordered(s.queue) && UniqueIds(s.queue) && IdsBelow(s.queue, s.nextId)
    && ClassesExist(s.queue)
  }

  ghost predicate ClassesExist(q: Queue) {
    forall i :: 0 <= i < |q| ==> q[i].cls < N_CLASSES
  }

  /** Each class but the reserved one keeps its distance. */
  ghost predicate Apart(s: State, gaps: seq<real>)
    requires |gaps| == N_CLASSES
  {
    forall cls :: RESERVED < cls < N_CLASSES ==> Separate(s.queue, cls, gaps[cls])
  }

  // ---------- runs ----------

  datatype Op =
    | Add(tv: real, task: int)
    | AddClass(now: real, delay: real, separation: real, cls: nat, task: int)
    | Remove(id: nat)
    | Dispatch(now: real)
    | StepClock(offset: real)

  /** What the module demands of its callers, given the distance each class promises to ask for. */
  predicate Allowed(op: Op, gaps: seq<real>)
    requires |gaps| == N_CLASSES
  {
    op.AddClass? ==> op.delay >= 0.0 && op.cls < N_CLASSES && op.separation >= 0.0 && op.separation >= gaps[op.cls]
  }

  /** One queue is another with one entry taken out. */
  lemma TakeOut(q: Queue, i: nat, next: nat)
    requires i < |q| && Ordered(q) && UniqueIds(q) && IdsBelow(q, next) && ClassesExist(q)
    ensures var r := q[..i] + q[i + 1..]; Ordered(r) && UniqueIds(r) && IdsBelow(r, next) && ClassesExist(r)
    ensures forall cls, gap :: Separate(q, cls, gap) ==> Separate(q[..i] + q[i + 1..], cls, gap)
  {
    var r := q[..i] + q[i + 1..];
    forall cls, gap | Separate(q, cls, gap) ensures Separate(r, cls, gap) {
      forall a, b | 0 <= a < b < |r| && r[a].cls == cls && r[b].cls == cls ensures r[b].tv - r[a].tv >= gap {
        assert r[a] == q[if a < i then a else a + 1];
        assert r[b] == q[if b < i then b else b + 1];
      }
    }
  }

  lemma ShiftKeeps(q: Queue, offset: real, next: nat)
    requires Ordered(q) && UniqueIds(q) && IdsBelow(q, next) && ClassesExist(q)
    ensures var r := Shift(q, offset); Ordered(r) && UniqueIds(r) && IdsBelow(r, next) && ClassesExist(r)
    ensures forall cls, gap :: Separate(q, cls, gap) ==> Separate(Shift(q, offset), cls, gap)
  {
    var r := Shift(q, offset);
    forall i, j | 0 <= i < j < |r| ensures Before(r[i], r[j]) {
      assert Before(q[i], q[j]);
    }
  }

  lemma AddAtIsSound(s: State, tv: real, cls: nat, task: int)
    requires Sound(s) && cls < N_CLASSES
    ensures Sound(AddAt(s, tv, cls, task))
  {
    hide Ordered, UniqueIds, IdsBelow, ClassesExist, Insert;
    InsertIsOrdered(s.queue, Entry(tv, s.nextId, cls, task));
    InsertClassesExist(s.queue, Entry(tv, s.nextId, cls, task));
  }

  lemma InsertClassesExist(q: Queue, e: Entry)
    requires ClassesExist(q) && e.cls < N_CLASSES
    ensures ClassesExist(Insert(q, e))
  {
  }

  lemma StepIsSound(s: State, op: Op)
    requires Sound(s) && (op.AddClass? ==> op.cls < N_CLASSES)
    ensures Sound(Effect(s, op))
  {
    hide Ordered, UniqueIds, IdsBelow, Insert, Shift, Scan;
    match op {
      case Add(tv, task) =>
        AddAtIsSound(s, tv, RESERVED, task);
      case AddClass(now, delay, separation, cls, task) =>
        AddAtIsSound(s, now + ClassDelay(s, now, delay, separation, cls), cls, task);
      case Remove(id) =>
        var i := IndexOf(s.queue, id);
        if i < |s.queue| {
          TakeOut(s.queue, i, s.nextId);
        }
      case Dispatch(now) =>
        if Due(s, now) {
          TakeOut(s.queue, 0, s.nextId);
          assert s.queue[..0] + s.queue[1..] == s.queue[1..];
        }
      case StepClock(offset) =>
        ShiftKeeps(s.queue, offset, s.nextId);
    }
  }

  ghost function Effect(s: State, op: Op): State
    requires Sound(s) && (op.AddClass? ==> op.cls < N_CLASSES)
  {
    match op
    case Add(tv, task) => AddAt(s, tv, RESERVED, task)
    case AddClass(now, delay, separation, cls, task) => AddInClass(s, now, delay, separation, cls, task)
    case Remove(id) => s.(queue := Without(s.queue, id))
    case Dispatch(now) => if Due(s, now) then Dispatched(s, now) else s
    case StepClock(offset) => Stepped(s, offset)
  }

  /** One operation; it leaves the queue in order. */
  ghost function Step(s: State, op: Op): (t: State)
    requires Sound(s) && (op.AddClass? ==> op.cls < N_CLASSES)
    ensures Sound(t)
  {
    StepIsSound(s, op);
    Effect(s, op)
  }

  lemma AddKeeps(s: State, tv: real, cls: nat, task: int, gaps: seq<real>, separation: real)
    requires Sound(s) && |gaps| == N_CLASSES && Apart(s, gaps) && cls < N_CLASSES
    requires forall c :: RESERVED < c < N_CLASSES ==> gaps[c] >= 0.0
    requires cls != RESERVED ==> gaps[cls] <= separation && Clear(s.queue, cls, separation, tv)
    ensures Sound(AddAt(s, tv, cls, task)) && Apart(AddAt(s, tv, cls, task), gaps)
  {
    var e := Entry(tv, s.nextId, cls, task);
    InsertIsOrdered(s.queue, e);
    forall c | RESERVED < c < N_CLASSES ensures Separate(Insert(s.queue, e), c, gaps[c]) {
      InsertSeparate(s.queue, e, c, gaps[c], if c == cls then separation else gaps[c]);
    }
    forall i | 0 <= i < |Insert(s.queue, e)| ensures Insert(s.queue, e)[i].cls < N_CLASSES {
    }
  }

  /** Every operation keeps the queue in order and each class apart. */
  lemma StepKeeps(s: State, op: Op, gaps: seq<real>)
    requires Sound(s) && |gaps| == N_CLASSES && Apart(s, gaps) && Allowed(op, gaps)
    requires forall c :: RESERVED < c < N_CLASSES ==> gaps[c] >= 0.0
    ensures Apart(Step(s, op), gaps)
  {
    hide Ordered, UniqueIds, IdsBelow, Separate, Insert, Shift, Scan, Clear;
    match op {
      case Add(tv, task) =>
        AddKeeps(s, tv, RESERVED, task, gaps, 0.0);
      case AddClass(now, delay, separation, cls, task) =>
        ScanIsClear(s.queue, cls, separation, now, StartDelay(delay, separation, now, s.lastDispatch[cls]));
        AddKeeps(s, now + ClassDelay(s, now, delay, separation, cls), cls, task, gaps, separation);
      case Remove(id) =>
        var i := IndexOf(s.queue, id);
        if i < |s.queue| {
          TakeOut(s.queue, i, s.nextId);
        }
      case Dispatch(now) =>
        if Due(s, now) {
          TakeOut(s.queue, 0, s.nextId);
          assert s.queue[..0] + s.queue[1..] == s.queue[1..];
        }
      case StepClock(offset) =>
        ShiftKeeps(s.queue, offset, s.nextId);
    }
  }

  ghost function Run(s: State, ops: seq<Op>, gaps: seq<real>): (t: State)
    requires Sound(s) && |gaps| == N_CLASSES && Apart(s, gaps)
    requires forall c :: RESERVED < c < N_CLASSES ==> gaps[c] >= 0.0
    requires forall i :: 0 <= i < |ops| ==> Allowed(ops[i], gaps)
    ensures Sound(t) && Apart(t, gaps)
  {
    if ops == [] then s
    else
      var t := Run(s, ops[..|ops| - 1], gaps);
      StepKeeps(t, ops[|ops| - 1], gaps);
      Step(t, ops[|ops| - 1])
  }

  // ---------- no overtaking ----------

  /** Two entries that stay pending keep their places in the queue relative to each other. */
  ghost predicate SameOrder(q: Queue, r: Queue) {
    forall i, j, k, l ::
      (0 <= i < j < |q| && 0 <= k < |r| && 0 <= l < |r| && r[k].id == q[i].id && r[l].id == q[j].id) ==> k < l
  }

  lemma InsertKeepsOrder(q: Queue, e: Entry)
    requires UniqueIds(q) && IdsBelow(q, e.id)
    ensures SameOrder(q, Insert(q, e))
  {
    var p, r := Position(q, e.tv), Insert(q, e);
    assert r == q[..p] + [e] + q[p..];
    hide Position, Insert;
    forall i, j, k, l | 0 <= i < j < |q| && 0 <= k < |r| && 0 <= l < |r|
        && r[k].id == q[i].id && r[l].id == q[j].id
      ensures k < l
    {
      PlaceAfterInsert(q, e, p, i, k);
      PlaceAfterInsert(q, e, p, j, l);
    }
  }

  /** Where an entry is after another one has been put in. */
  lemma PlaceAfterInsert(q: Queue, e: Entry, p: nat, i: nat, k: nat)
    requires UniqueIds(q) && IdsBelow(q, e.id) && p <= |q| && i < |q| && k <= |q|
    requires (q[..p] + [e] + q[p..])[k].id == q[i].id
    ensures k == if i < p then i else i + 1
  {
    var r := q[..p] + [e] + q[p..];
    assert k != p;
    assert r[k] == q[if k < p then k else k - 1];
  }

  lemma TakeOutKeepsOrder(q: Queue, n: nat)
    requires UniqueIds(q) && n < |q|
    ensures SameOrder(q, q[..n] + q[n + 1..])
  {
    var r := q[..n] + q[n + 1..];
    forall i, j, k, l | 0 <= i < j < |q| && 0 <= k < |r| && 0 <= l < |r|
        && r[k].id == q[i].id && r[l].id == q[j].id
      ensures k < l
    {
      assert r[k] == q[if k < n then k else k + 1];
      assert r[l] == q[if l < n then l else l + 1];
    }
  }

  lemma SameIsSameOrder(q: Queue)
    requires UniqueIds(q)
    ensures SameOrder(q, q)
  {
  }

  lemma ShiftKeepsOrder(q: Queue, offset: real)
    requires UniqueIds(q)
    ensures SameOrder(q, Shift(q, offset))
  {
  }

  /** No operation lets a pending timeout overtake another; only the first in the queue is dispatched. */
  lemma NoOvertaking(s: State, op: Op)
    requires Sound(s) && (op.AddClass? ==> op.cls < N_CLASSES)
    ensures SameOrder(s.queue, Step(s, op).queue)
  {
    hide Ordered, UniqueIds, IdsBelow, SameOrder, Insert, Scan, Shift;
    match op {
      case Add(tv, task) =>
        InsertKeepsOrder(s.queue, Entry(tv, s.nextId, RESERVED, task));
      case AddClass(now, delay, separation, cls, task) =>
        InsertKeepsOrder(s.queue, Entry(now + ClassDelay(s, now, delay, separation, cls), s.nextId, cls, task));
      case Remove(id) =>
        var i := IndexOf(s.queue, id);
        if i < |s.queue| {
          TakeOutKeepsOrder(s.queue, i);
        } else {
          SameIsSameOrder(s.queue);
        }
      case Dispatch(now) =>
        if Due(s, now) {
          TakeOutKeepsOrder(s.queue, 0);
          assert s.queue[..0] + s.queue[1..] == s.queue[1..];
        } else {
          SameIsSameOrder(s.queue);
        }
      case StepClock(offset) =>
        ShiftKeepsOrder(s.queue, offset);
    }
  }

  /** Right after it is queued, a class timeout is clear of its class and, unless the clock has gone
      back, of the last dispatch; no shorter delay would do. */
  lemma ClassDelayIsLeast(s: State, now: real, delay: real, separation: real, cls: nat, v: real)
    requires Sound(s) && cls < N_CLASSES && delay >= 0.0 && separation >= 0.0
    ensures var m := ClassDelay(s, now, delay, separation, cls);
            && m >= delay && Clear(s.queue, cls, separation, now + m)
            && (now >= s.lastDispatch[cls] ==> now + m - s.lastDispatch[cls] >= separation)
            && ((v >= delay && Clear(s.queue, cls, separation, now + v)
                 && (now >= s.lastDispatch[cls] ==> now + v - s.lastDispatch[cls] >= separation)) ==> v >= m)
  {
    var start := StartDelay(delay, separation, now, s.lastDispatch[cls]);
    ScanIsClear(s.queue, cls, separation, now, start);
    if v >= start && Clear(s.queue, cls, separation, now + v) {
      ScanIsLeast(s.queue, cls, separation, now, start, v);
    }
  }

  // ---------- the module's operations ----------

  /** A delay or separation after the random stretch of up to `randomness`; draw is random() % 0xffff. */
  function Stretched(x: real, randomness: real, draw: nat): real {
    if randomness > 0.0 then x * (draw as real / 65534.0 * randomness + 1.0) else x
  }

  lemma StretchGrows(x: real, randomness: real, draw: nat)
    requires x >= 0.0
    ensures Stretched(x, randomness, draw) >= x
  {
    if randomness > 0.0 {
      var k := draw as real / 65534.0 * randomness;
      assert k >= 0.0;
      assert x * (k + 1.0) == x * k + x;
    }
  }

  /** Noting the dispatch of the first entry and removing it by its identifier is a dispatch. */
  lemma DispatchRemovesFirst(s: State, now: real)
    requires Sound(s)
    ensures Due(s, now) ==>
              var e := s.queue[0];
              && e.cls < |s.lastDispatch|
              && var t := s.(lastDispatch := s.lastDispatch[e.cls := now]);
              && Sound(t) && Step(t, Remove(e.id)) == Step(s, Dispatch(now))
              && s.queue == [e] + Step(s, Dispatch(now)).queue
    ensures !Due(s, now) ==> Step(s, Dispatch(now)) == s
  {
    if Due(s, now) {
      hide Ordered, UniqueIds, IdsBelow;
      var q, e := s.queue, s.queue[0];
      assert IndexOf(q, e.id) == 0;
      assert q[..0] + q[1..] == q[1..];
    }
  }

  /** Some entry is due exactly when the first one is. */
  lemma EarliestIsFirst(q: Queue, now: real)
    requires Ordered(q)
    ensures (exists i :: 0 <= i < |q| && q[i].tv <= now) <==> |q| > 0 && now >= q[0].tv
    ensures forall i :: 0 < i < |q| ==> Before(q[0], q[i])
  {
    if i :| 0 < i < |q| && q[i].tv <= now {
      assert Before(q[0], q[i]);
    }
  }

  class TimerQueue {
    var queue: Queue
    var nextId: nat
    var lastDispatch: seq<real>

    function Now(): State
      reads this
    {
      State(queue, nextId, lastDispatch)
    }

    ghost predicate Valid()
      reads this
    {
      Sound(Now())
    }

    /** SCH_Initialise; the dispatch times are those of static storage. */
    constructor ()
      ensures Valid() && Now() == State([], 0, [0.0, 0.0, 0.0])
      ensures forall gaps :: |gaps| == N_CLASSES ==> Apart(Now(), gaps)
    {
      queue, nextId, lastDispatch := [], 0, [0.0, 0.0, 0.0];
    }

    /** The search for the first entry that expires later. */
    method FindPosition(tv: real) returns (p: nat)
      ensures p == Position(queue, tv)
    {
      p := 0;
      while p < |queue| && tv >= queue[p].tv
        invariant p <= |queue| && Position(queue, tv) == p + Position(queue[p..], tv)
      {
        assert queue[p..][1..] == queue[p + 1..];
        p := p + 1;
      }
    }

    /** Link a new entry into the queue. */
    method Link(tv: real, cls: nat, task: int) returns (id: nat)
      requires Valid() && cls < N_CLASSES
      modifies `queue, `nextId
      ensures Valid() && id == old(nextId)
      ensures Now() == AddAt(old(Now()), tv, cls, task)
    {
      AddAtIsSound(Now(), tv, cls, task);
      hide Sound, Position;
      id := nextId;
      var e := Entry(tv, id, cls, task);
      var p := FindPosition(tv);
      queue := queue[..p] + [e] + queue[p..];
      nextId := nextId + 1;
    }

    /** SCH_AddTimeout. */
    method AddTimeout(tv: real, task: int) returns (id: nat)
      requires Valid()
      modifies `queue, `nextId
      ensures Valid() && id == old(nextId)
      ensures Now() == Step(old(Now()), Add(tv, task))
    {
      hide Sound, AddAt;
      id := Link(tv, RESERVED, task);
    }

    /** SCH_AddTimeoutByDelay; now is the raw clock's reading. */
    method AddTimeoutByDelay(now: real, delay: real, task: int) returns (id: nat)
      requires Valid() && delay >= 0.0
      modifies `queue, `nextId
      ensures Valid() && id == old(nextId)
      ensures Now() == Step(old(Now()), Add(now + delay, task))
    {
      id := AddTimeout(now + delay, task);
    }

    /** The scan of SCH_AddTimeoutInClass for entries of the class that come too close. */
    method ClearDelay(now: real, start: real, separation: real, cls: nat) returns (delay: real)
      ensures delay == Scan(queue, cls, separation, now, start)
    {
      delay := start;
      for i := 0 to |queue|
        invariant delay == Scan(queue[..i], cls, separation, now, start)
      {
        assert queue[..i + 1][..i] == queue[..i];
        var e := queue[i];
        if e.cls == cls {
          var diff := e.tv - now;
          if delay > diff {
            if delay - diff < separation {
              delay := diff + separation;
            }
          } else if diff - delay < separation {
            delay := diff + separation;
          }
        }
      }
      assert queue[..|queue|] == queue;
    }

    /** SCH_AddTimeoutInClass. */
    method AddTimeoutInClass(now: real, minDelay: real, minSeparation: real, randomness: real, draw: nat,
                             cls: nat, task: int) returns (id: nat)
      requires Valid() && minDelay >= 0.0 && cls < N_CLASSES && draw < 0xffff
      modifies `queue, `nextId
      ensures Valid() && id == old(nextId)
      ensures Now() == Step(old(Now()), AddClass(now, Stretched(minDelay, randomness, draw),
                                                 Stretched(minSeparation, randomness, draw), cls, task))
    {
      var delay := Stretched(minDelay, randomness, draw);
      var separation := Stretched(minSeparation, randomness, draw);
      var diff := now - lastDispatch[cls];
      var start := delay;
      if diff < separation && diff >= 0.0 && diff + delay < separation {
        start := separation - diff;
      }
      start := ClearDelay(now, start, separation, cls);
      hide Sound, AddAt, Scan, Stretched;
      id := Link(now + start, cls, task);
    }

    /** SCH_RemoveTimeout: the entry with that id goes, every other stays. */
    method RemoveTimeout(id: nat)
      requires Valid()
      modifies `queue
      ensures Valid()
      ensures Now() == Step(old(Now()), Remove(id))
    {
      var i := 0;
      while i < |queue| && queue[i].id != id
        invariant i <= |queue| && IndexOf(queue, id) == i + IndexOf(queue[i..], id)
      {
        assert queue[i..][1..] == queue[i + 1..];
        i := i + 1;
      }
      if i < |queue| {
        TakeOut(queue, i, nextId);
        hide Ordered, UniqueIds, IdsBelow, ClassesExist, Separate;
        queue := queue[..i] + queue[i + 1..];
      }
    }

    /** One turn of the loop of dispatch_timeouts, up to the call of the handler: the first entry of
        the queue, if it is due. Nothing is due when no entry is left that has expired. */
    method DispatchNext(now: real) returns (entry: Option<Entry>)
      requires Valid()
      modifies `queue, `lastDispatch
      ensures Valid()
      ensures Now() == Step(old(Now()), Dispatch(now))
      ensures entry.Some? <==> exists i :: 0 <= i < |old(queue)| && old(queue)[i].tv <= now
      ensures entry.Some? ==> old(queue) == [entry.value] + queue && entry.value.tv <= now
                              && forall i :: 0 <= i < |queue| ==> Before(entry.value, queue[i])
    {
      EarliestIsFirst(queue, now);
      DispatchRemovesFirst(Now(), now);
      hide Sound, Before;
      if |queue| > 0 && now >= queue[0].tv {
        var e := queue[0];
        lastDispatch := lastDispatch[e.cls := now];
        RemoveTimeout(e.id);
        return Some(e);
      }
      entry := None;
    }

    /** handle_slew. */
    method HandleSlew(offset: real, isStepChange: bool)
      requires Valid()
      modifies `queue, `lastDispatch
      ensures Valid()
      ensures Now() == if isStepChange then Step(old(Now()), StepClock(offset)) else old(Now())
    {
      if isStepChange {
        ShiftKeeps(queue, offset, nextId);
        hide Ordered, UniqueIds, IdsBelow, ClassesExist, Separate;
        ghost var was := queue;
        for i := 0 to |queue|
          modifies `queue
          invariant |queue| == |was|
          invariant forall j :: 0 <= j < i ==> queue[j] == Shift(was, offset)[j]
          invariant forall j :: i <= j < |was| ==> queue[j] == was[j]
        {
          queue := queue[i := queue[i].(tv := queue[i].tv - offset)];
        }
        assert queue == Shift(was, offset);
        for i := 0 to N_CLASSES
          modifies `lastDispatch
          invariant |lastDispatch| == N_CLASSES
          invariant forall j :: 0 <= j < i ==> lastDispatch[j] == ShiftTimes(old(lastDispatch), offset)[j]
          invariant forall j :: i <= j < N_CLASSES ==> lastDispatch[j] == old(lastDispatch)[j]
        {
          lastDispatch := lastDispatch[i := lastDispatch[i] - offset];
        }
        assert lastDispatch == ShiftTimes(old(lastDispatch), offset);
      }
    }
  }

  // ---------- the descriptor set ----------

  /** read_fds with its size and one more than its greatest member. */
  class DescriptorSet {
    var fds: set<nat>
    var count: nat
    var oneHighest: nat

    ghost predicate Valid()
      reads this
    {
      && count == |fds|
      && (forall f :: f in fds ==> f < oneHighest)
      && (oneHighest > 0 ==> oneHighest - 1 in fds)
    }

    constructor ()
      ensures Valid() && fds == {}
    {
      fds, count, oneHighest := {}, 0, 0;
    }

    /** SCH_AddInputFileHandler. */
    method Add(fd: nat)
      requires Valid() && fd !in fds
      modifies this
      ensures Valid() && fds == old(fds) + {fd}
    {
      count := count + 1;
      fds := fds + {fd};
      if fd + 1 > oneHighest {
        oneHighest := fd + 1;
      }
    }

    /** SCH_RemoveInputFileHandler: the search for the new greatest descriptor always ends. */
    method Remove(fd: nat)
      requires Valid() && fd in fds
      modifies this
      ensures Valid() && fds == old(fds) - {fd}
    {
      count := count - 1;
      fds := fds - {fd};
      var left: nat, check: nat := count, 0;
      ghost var rest := fds;
      while left > 0
        invariant rest == set f | f in fds && f >= check
        invariant left == |rest| && check <= oneHighest
        invariant left == 0 && check > 0 ==> check - 1 in fds
        decreases oneHighest - check
      {
        assert rest != {};
        ghost var f :| f in rest;
        if check in fds {
          left := left - 1;
        }
        rest := rest - {check};
        check := check + 1;
      }
      oneHighest := check;
    }
  }
}
