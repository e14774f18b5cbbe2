/** The two 32-bit registers of cmdmon.c that remember which command tokens are outstanding. */
module TokenRegisters {

  const WINDOW: nat := 32

  // ---------- registers as numbers ----------

  /** Bit p of a register: what r & (1 << p) tests. */
  function Bit(r: nat, p: nat): bool
    decreases p
  {
    if p == 0 then r % 2 == 1 else Bit(r / 2, p - 1)
  }

  /** What r |= 1 << p leaves in the register. */
  function SetBit(r: nat, p: nat): nat
    decreases p
  {
    if p == 0 then (if r % 2 == 1 then r else r + 1) else r % 2 + 2 * SetBit(r / 2, p - 1)
  }

  /** A register whose lowest n bits are set and no others. */
  function Ones(n: nat): nat {
    if n == 0 then 0 else 2 * Ones(n - 1) + 1
  }

  lemma {:induction false} BitOfSetBit(r: nat, p: nat, q: nat)
    ensures Bit(SetBit(r, p), q) == (p == q || Bit(r, q))
    decreases p
  {
    if p > 0 {
      var s := SetBit(r / 2, p - 1);
      assert SetBit(r, p) / 2 == s && SetBit(r, p) % 2 == r % 2;
      if q > 0 {
        BitOfSetBit(r / 2, p - 1, q - 1);
      }
    } else if q > 0 {
      assert SetBit(r, 0) / 2 == r / 2;
    }
  }

  lemma {:induction false} BitOfOnes(n: nat, q: nat)
    ensures Bit(Ones(n), q) <==> q < n
  {
    if n == 0 {
      BitOfZero(q);
    } else {
      assert Ones(n) / 2 == Ones(n - 1) && Ones(n) % 2 == 1;
      if q > 0 {
        BitOfOnes(n - 1, q - 1);
      }
    }
  }

  lemma {:induction false} BitOfZero(q: nat)
    ensures !Bit(0, q)
  {
    if q > 0 {
      BitOfZero(q - 1);
    }
  }

  /** Issuing the next token extends a full run of ones. */
  lemma {:induction false} SetBitExtendsOnes(n: nat)
    ensures SetBit(Ones(n), n) == Ones(n + 1)
  {
    if n > 0 {
      assert Ones(n) / 2 == Ones(n - 1) && Ones(n) % 2 == 1;
      SetBitExtendsOnes(n - 1);
    }
  }

  /** A register with no bit outside the lowest n fits in n bits. */
  lemma {:induction false} SubsetFits(r: nat, n: nat)
    requires forall q: nat :: Bit(r, q) ==> q < n
    ensures r <= Ones(n)
  {
    if n == 0 {
      NoBitsIsZero(r);
    } else {
      forall q: nat | Bit(r / 2, q) ensures q < n - 1 {
        assert Bit(r, q + 1);
      }
      SubsetFits(r / 2, n - 1);
    }
  }

  lemma {:induction false} NoBitsIsZero(r: nat)
    requires forall q: nat :: !Bit(r, q)
    ensures r == 0
  {
    if r > 0 {
      assert !Bit(r, 0);
      forall q: nat ensures !Bit(r / 2, q) {
        assert !Bit(r, q + 1);
      }
      NoBitsIsZero(r / 2);
    }
  }

  lemma OnesOfWindow()
    ensures Ones(WINDOW) == 0xffff_ffff
  {
    assert Ones(8) == 0xff by {
      assert Ones(4) == 0xf;
    }
    assert Ones(16) == 0xffff by {
      assert Ones(12) == 0xfff;
    }
    assert Ones(24) == 0xff_ffff by {
      assert Ones(20) == 0xf_ffff;
    }
    assert Ones(28) == 0xfff_ffff;
  }

  // ---------- the tokens the registers stand for ----------

  /** Position q is past doubt: its returned bit says whether its token was accepted, and it is not evicted. */
  ghost predicate Tracks(returned: nat, base: nat, q: nat, accepted: set<nat>, evicted: set<nat>) {
    && (Bit(returned, q) <==> base + q in accepted)
    && base + q !in evicted
  }

  /** The registers describe tokens base..base+pointer; all older ones are accepted or evicted.
      Positions below `from` are about to be shifted out. */
  ghost predicate Describes(issued: nat, returned: nat, base: nat, pointer: nat, from: nat,
                            accepted: set<nat>, evicted: set<nat>) {
    && 1 <= base && pointer <= WINDOW
    && issued == Ones(pointer)
    && (forall q: nat :: Bit(returned, q) ==> q < pointer)
    && (forall t: nat :: 1 <= t < base + from ==> t in accepted || t in evicted)
    && (forall q: nat :: from <= q < pointer ==> Tracks(returned, base, q, accepted, evicted))
    && (forall t: nat :: t in accepted || t in evicted ==> 1 <= t < base + pointer)
    && accepted !! evicted
  }

  lemma ShiftDescribes(issued: nat, returned: nat, base: nat, pointer: nat, accepted: set<nat>, evicted: set<nat>)
    requires Describes(issued, returned, base, pointer, 1, accepted, evicted) && pointer > 0
    ensures Describes(issued / 2, returned / 2, base + 1, pointer - 1, 0, accepted, evicted)
  {
    var r := returned / 2;
    forall q: nat | Bit(r, q) ensures q < pointer - 1 {
      assert Bit(returned, q + 1);
    }
    var next := base + 1;
    forall q: nat | 0 <= q < pointer - 1 ensures Tracks(r, next, q, accepted, evicted) {
      assert Tracks(returned, base, q + 1, accepted, evicted);
      assert next + q == base + (q + 1);
    }
  }

  /** When bit 0 is returned as well as issued, its token can go too. */
  lemma ReturnedMayGo(issued: nat, returned: nat, base: nat, pointer: nat, accepted: set<nat>, evicted: set<nat>)
    requires Describes(issued, returned, base, pointer, 0, accepted, evicted)
    requires Bit(issued, 0) && Bit(returned, 0)
    ensures pointer > 0 && Describes(issued, returned, base, pointer, 1, accepted, evicted)
  {
    BitOfOnes(pointer, 0);
    assert Tracks(returned, base, 0, accepted, evicted);
  }

  lemma EvictDescribes(issued: nat, returned: nat, base: nat, pointer: nat, accepted: set<nat>, evicted: set<nat>)
    requires Describes(issued, returned, base, pointer, 0, accepted, evicted) && pointer > 0
    requires !Bit(returned, 0)
    ensures base !in accepted && base !in evicted
    ensures Describes(issued, returned, base, pointer, 1, accepted, evicted + {base})
  {
    var more := evicted + {base};
    assert Tracks(returned, base, 0, accepted, evicted);
    forall q: nat | 1 <= q < pointer ensures Tracks(returned, base, q, accepted, more) {
      assert Tracks(returned, base, q, accepted, evicted);
    }
  }

  lemma IssueDescribes(issued: nat, returned: nat, base: nat, pointer: nat, accepted: set<nat>, evicted: set<nat>)
    requires Describes(issued, returned, base, pointer, 0, accepted, evicted) && pointer < WINDOW
    requires !(Bit(issued, 0) && Bit(returned, 0))
    ensures Describes(SetBit(issued, pointer), returned, base, pointer + 1, 0, accepted, evicted)
    ensures !Bit(returned, 0)
    ensures base + pointer !in accepted && base + pointer !in evicted
  {
    SetBitExtendsOnes(pointer);
    BitOfOnes(pointer, 0);
    assert Tracks(returned, base, pointer, accepted, evicted);
  }

  lemma AcceptDescribes(issued: nat, returned: nat, base: nat, pointer: nat, pos: nat,
                        accepted: set<nat>, evicted: set<nat>)
    requires Describes(issued, returned, base, pointer, 0, accepted, evicted) && pos < pointer
    requires !Bit(returned, pos) && !(Bit(issued, 0) && Bit(returned, 0))
    ensures Describes(issued, SetBit(returned, pos), base, pointer, if pos == 0 then 1 else 0,
                      accepted + {base + pos}, evicted)
    ensures pos > 0 ==> !Bit(SetBit(returned, pos), 0)
  {
    var r, more := SetBit(returned, pos), accepted + {base + pos};
    BitOfOnes(pointer, 0);
    BitOfSetBit(returned, pos, 0);
    forall q: nat | Bit(r, q) ensures q < pointer {
      BitOfSetBit(returned, pos, q);
    }
    assert Tracks(returned, base, pos, accepted, evicted);
    forall q: nat | 0 <= q < pointer ensures Tracks(r, base, q, more, evicted) {
      BitOfSetBit(returned, pos, q);
      assert Tracks(returned, base, q, accepted, evicted);
    }
  }

  /** A token that was issued, not accepted and not evicted. */
  ghost predicate OutstandingIn(t: int, next: nat, accepted: set<nat>, evicted: set<nat>) {
    1 <= t < next && t !in accepted && t !in evicted
  }

  /** What issuing token `next` pushes out: the token 32 numbers older, unless it is settled already. */
  ghost function Overdue(next: nat, accepted: set<nat>, evicted: set<nat>): set<nat> {
    if OutstandingIn(next - WINDOW, next, accepted, evicted) then {next - WINDOW} else {}
  }

  /** Exactly the unreturned positions of the window are outstanding. */
  lemma WindowIsOutstanding(issued: nat, returned: nat, base: nat, pointer: nat, t: int,
                            accepted: set<nat>, evicted: set<nat>)
    requires Describes(issued, returned, base, pointer, 0, accepted, evicted)
    ensures OutstandingIn(t, base + pointer, accepted, evicted)
            <==> base <= t < base + pointer && !Bit(returned, t - base)
  {
    if base <= t < base + pointer {
      assert Tracks(returned, base, t - base, accepted, evicted);
      assert base + (t - base) == t;
    }
  }

  // ---------- the registers ----------

  class Registers {
    var issued: nat
    var returned: nat
    var base: nat
    var pointer: nat
    /** Tokens a client has presented successfully, and tokens pushed out unpresented. */
    ghost var accepted: set<nat>
    ghost var evicted: set<nat>

    /** Number of the next token to issue. */
    function Next(): nat
      reads this
    {
      base + pointer
    }

    ghost predicate Shiftable(from: nat)
      reads this
    {
      Describes(issued, returned, base, pointer, from, accepted, evicted)
    }

    ghost predicate Valid()
      reads this
    {
      Shiftable(0) && !(Bit(issued, 0) && Bit(returned, 0))
    }

    ghost predicate Outstanding(t: int)
      reads this
    {
      OutstandingIn(t, Next(), accepted, evicted)
    }

    constructor ()
      ensures Valid() && Next() == 1 && accepted == {} && evicted == {}
    {
      issued, returned, pointer := 0, 0, 0;
      base := 1;
      accepted, evicted := {}, {};
      new;
      forall q: nat ensures !Bit(0, q) {
        BitOfZero(q);
      }
    }

    /** Between calls the issued register is a run of ones and both registers fit in 32 bits. */
    lemma FitsInWord()
      requires Valid()
      ensures issued == Ones(pointer) && pointer <= WINDOW
      ensures returned <= issued
      ensures forall q: nat :: Bit(returned, q) ==> Bit(issued, q)
      ensures issued <= 0xffff_ffff
    {
      SubsetFits(returned, pointer);
      forall q: nat | Bit(returned, q) ensures Bit(issued, q) {
        BitOfOnes(pointer, q);
      }
      OnesGrow(pointer, WINDOW);
      OnesOfWindow();
    }

    /** shift_tokens. */
    method ShiftTokens()
      requires Shiftable(1) && pointer > 0
      modifies `issued, `returned, `base, `pointer
      ensures Valid() && Next() == old(Next()) && pointer < old(pointer)
    {
      var more := true;
      while more
        modifies `issued, `returned, `base, `pointer
        invariant Next() == old(Next()) && pointer <= old(pointer)
        invariant more ==> Shiftable(1) && pointer > 0
        invariant !more ==> Valid() && pointer < old(pointer)
        decreases pointer, more
      {
        ShiftDescribes(issued, returned, base, pointer, accepted, evicted);
        issued := issued / 2;
        returned := returned / 2;
        base := base + 1;
        pointer := pointer - 1;
        more := issued % 2 == 1 && returned % 2 == 1;
        if more {
          ReturnedMayGo(issued, returned, base, pointer, accepted, evicted);
        }
      }
    }

    /** get_token: a fresh number each time. The token issued 32 numbers earlier, if nobody presented
        it, stops being acceptable; no other token does. */
    method GetToken() returns (token: nat)
      requires Valid()
      modifies this
      ensures Valid()
      ensures token == old(Next()) && Next() == old(Next()) + 1 && Outstanding(token)
      ensures accepted == old(accepted)
      ensures evicted == old(evicted) + Overdue(old(Next()), old(accepted), old(evicted))
    {
      hide Describes, Bit, Ones, SetBit;
      WindowIsOutstanding(issued, returned, base, pointer, Next() - WINDOW, accepted, evicted);
      if pointer == WINDOW {
        FullWindow(issued, returned, base, pointer, accepted, evicted);
        EvictDescribes(issued, returned, base, pointer, accepted, evicted);
        evicted := evicted + {base};
        ShiftTokens();
      } else {
        PartWindow(issued, returned, base, pointer, accepted, evicted);
      }
      IssueDescribes(issued, returned, base, pointer, accepted, evicted);
      token := base + pointer;
      issued := SetBit(issued, pointer);
      pointer := pointer + 1;
      NextIsPositive(issued, returned, base, pointer, accepted, evicted);
    }

    /** check_token: succeeds exactly for a token that was issued, not yet accepted and not evicted. */
    method CheckToken(token: nat) returns (ok: bool)
      requires Valid()
      modifies this
      ensures Valid() && Next() == old(Next())
      ensures ok <==> old(Outstanding(token))
      ensures accepted == if ok then old(accepted) + {token} else old(accepted)
      ensures evicted == old(evicted)
    {
      hide Describes, Bit, Ones, SetBit;
      WindowIsOutstanding(issued, returned, base, pointer, token, accepted, evicted);
      if token < base {
        ok := false;
      } else {
        var pos := token - base;
        if pos >= pointer {
          ok := false;
        } else if Bit(returned, pos) {
          ok := false;
        } else {
          ok := true;
          AcceptDescribes(issued, returned, base, pointer, pos, accepted, evicted);
          assert base + pos == token;
          returned := SetBit(returned, pos);
          accepted := accepted + {token};
          if pos == 0 {
            ShiftTokens();
          }
        }
      }
    }
  }

  lemma FullWindow(issued: nat, returned: nat, base: nat, pointer: nat, accepted: set<nat>, evicted: set<nat>)
    requires Describes(issued, returned, base, pointer, 0, accepted, evicted) && pointer == WINDOW
    requires !(Bit(issued, 0) && Bit(returned, 0))
    ensures !Bit(returned, 0)
  {
    BitOfOnes(pointer, 0);
  }

  lemma PartWindow(issued: nat, returned: nat, base: nat, pointer: nat, accepted: set<nat>, evicted: set<nat>)
    requires Describes(issued, returned, base, pointer, 0, accepted, evicted) && pointer != WINDOW
    ensures pointer < WINDOW
  {
  }

  lemma NextIsPositive(issued: nat, returned: nat, base: nat, pointer: nat, accepted: set<nat>, evicted: set<nat>)
    requires Describes(issued, returned, base, pointer, 0, accepted, evicted)
    ensures 1 <= base
  {
  }

  lemma {:induction false} OnesGrow(m: nat, n: nat)
    requires m <= n
    ensures Ones(m) <= Ones(n)
  {
    if m < n {
      OnesGrow(m, n - 1);
    }
  }
}
