/** The streaming interface of md5.c against the padding, length and output rules of RFC 1321. The
    compression of one block is an arbitrary function. */
module Md5 {

  type Byte = b: nat | b < 256
  type Word = w: nat | w < 0x1_0000_0000

  const WORD: nat := 0x1_0000_0000

  /** The four words that each block transforms. */
  datatype Chain = Chain(a: Word, b: Word, c: Word, d: Word)

  type Transform = (Chain, seq<Word>) -> Chain

  const INIT: Chain := Chain(0x67452301, 0xefcdab89, 0x98badcfe, 0x10325476)

  // ---------- words and blocks ----------

  /** Four bytes as a word, the least significant first. */
  function WordFrom(b0: Byte, b1: Byte, b2: Byte, b3: Byte): Word {
    (b0 as int) + 0x100 * (b1 as int) + 0x1_0000 * (b2 as int) + 0x100_0000 * (b3 as int)
  }

  function WordAt(block: seq<Byte>, i: nat): Word
    requires i + 4 <= |block|
  {
    WordFrom(block[i], block[i + 1], block[i + 2], block[i + 3])
  }

  /** A word shifted right by bytes, low-order byte first. */
  function BytesOf(w: Word): (s: seq<Byte>)
    ensures |s| == 4
  {
    [w % 0x100, w / 0x100 % 0x100, w / 0x100 / 0x100 % 0x100, w / 0x100 / 0x100 / 0x100]
  }

  lemma WordOfBytes(w: Word)
    ensures WordAt(BytesOf(w), 0) == w
  {
    var q1 := w / 0x100;
    var q2 := q1 / 0x100;
    var q3 := q2 / 0x100;
    assert w == w % 0x100 + 0x100 * q1;
    assert q1 == q1 % 0x100 + 0x100 * q2;
    assert q2 == q2 % 0x100 + 0x100 * q3;
  }

  /** The first n words of a block. */
  function WordsOf(block: seq<Byte>, n: nat): (s: seq<Word>)
    requires 4 * n <= |block|
    ensures |s| == n
  {
    seq(n, i requires 0 <= i < n => WordAt(block, 4 * i))
  }

  /** Section 3.4: the blocks of a message transform the words one after the other. */
  function Fold(t: Transform, m: seq<Byte>, n: nat): Chain
    requires 64 * n <= |m|
  {
    if n == 0 then INIT else t(Fold(t, m, n - 1), WordsOf(m[64 * (n - 1)..64 * n], 16))
  }

  lemma {:induction false} FoldOfPrefix(t: Transform, m: seq<Byte>, x: seq<Byte>, n: nat)
    requires 64 * n <= |m|
    ensures Fold(t, m + x, n) == Fold(t, m, n)
  {
    if n > 0 {
      FoldOfPrefix(t, m, x, n - 1);
      assert (m + x)[64 * (n - 1)..64 * n] == m[64 * (n - 1)..64 * n];
    }
  }

  // ---------- the digest of a message ----------

  /** Section 3.1: a one bit and then zero bits, up to 56 modulo 64 bytes. */
  function Padding(length: nat): (p: seq<Byte>)
    ensures (length + |p|) % 64 == 56 && (length + |p| + 8) % 64 == 0 && 1 <= |p| <= 64
  {
    var r := length % 64;
    [0x80] + seq(if r < 56 then 55 - r else 119 - r, i => 0)
  }

  /** Section 3.2: the number of bits modulo 2^64, low-order word first. */
  function LengthField(length: nat): (p: seq<Byte>)
    ensures |p| == 8
  {
    BytesOf(8 * length % WORD) + BytesOf(8 * length / WORD % WORD)
  }

  function Padded(m: seq<Byte>): (p: seq<Byte>)
    ensures |p| % 64 == 0
  {
    m + Padding(|m|) + LengthField(|m|)
  }

  /** Section 3.5: the words in order, each with its low-order byte first. */
  function Output(c: Chain): (s: seq<Byte>)
    ensures |s| == 16
  {
    BytesOf(c.a) + BytesOf(c.b) + BytesOf(c.c) + BytesOf(c.d)
  }

  function Digest(t: Transform, m: seq<Byte>): seq<Byte> {
    Output(Fold(t, Padded(m), |Padded(m)| / 64))
  }

  // ---------- one byte at a time ----------

  function Blocks(m: seq<Byte>): nat { |m| / 64 }

  /** The bytes that do not fill a block yet. */
  function Tail(m: seq<Byte>): (s: seq<Byte>)
    ensures |s| == |m| % 64
  {
    m[64 * Blocks(m)..]
  }

  function Whole(t: Transform, m: seq<Byte>): Chain {
    Fold(t, m, Blocks(m))
  }

  lemma NextByte(t: Transform, m: seq<Byte>, b: Byte)
    ensures Tail(m + [b]) == if |m| % 64 == 63 then [] else Tail(m) + [b]
    ensures Whole(t, m + [b]) ==
              if |m| % 64 == 63 then t(Whole(t, m), WordsOf(Tail(m) + [b], 16)) else Whole(t, m)
  {
    var n := Blocks(m);
    var s := m + [b];
    FoldOfPrefix(t, m, [b], n);
    if |m| % 64 == 63 {
      assert |s| == 64 * (n + 1);
      assert s[64 * n..64 * (n + 1)] == Tail(m) + [b];
    } else {
      assert Blocks(s) == n;
    }
  }

  // ---------- the bit count ----------

  /** The pair of words that counts bits modulo 2^64. */
  predicate Counts(lo: nat, hi: nat, length: nat) {
    lo == 8 * length % WORD && hi == 8 * length / WORD % WORD
  }

  /** Adding a length to the pair, with the carry found by comparing. */
  lemma CountAdds(lo: nat, hi: nat, length: nat, more: nat)
    requires Counts(lo, hi, length) && more < WORD
    ensures var add := 8 * more % WORD;
            var lo' := (lo + add) % WORD;
            var carry := if lo' < lo then 1 else 0;
            Counts(lo', (hi + carry + more / 0x2000_0000) % WORD, length + more)
  {
    var x, y := 8 * length, 8 * more;
    var add := y % WORD;
    assert y / WORD == more / 0x2000_0000;
    assert 8 * (length + more) == x + y;
    var c := if lo + add >= WORD then 1 else 0;
    SumParts(x, y, c);
    SumMod(x / WORD, y / WORD + c);
  }

  lemma SumParts(x: nat, y: nat, c: nat)
    requires c == if x % WORD + y % WORD >= WORD then 1 else 0
    ensures (x + y) % WORD == (x % WORD + y % WORD) % WORD
    ensures (x + y) / WORD == x / WORD + y / WORD + c
    ensures ((x % WORD + y % WORD) % WORD < x % WORD) <==> c == 1
  {
  }

  lemma SumMod(x: nat, y: nat)
    ensures (x % WORD + y) % WORD == (x + y) % WORD
  {
  }

  /** The buffer position kept in the count. */
  lemma PositionOf(lo: nat, hi: nat, length: nat)
    requires Counts(lo, hi, length)
    ensures lo / 8 % 64 == length % 64
  {
    var k := 8 * length / WORD * 0x80_0000;
    assert lo == 8 * (length - 64 * k);
    PositionFrom(lo, length, k);
  }

  lemma PositionFrom(lo: nat, length: nat, k: nat)
    requires lo == 8 * (length - 64 * k)
    ensures lo / 8 % 64 == length % 64
  {
    var p := length - 64 * k;
    assert lo / 8 == p;
    assert p % 64 == length % 64;
  }

  // ---------- the last block ----------

  lemma WordsOfLast(tail: seq<Byte>, lo: Word, hi: Word)
    requires |tail| == 56
    ensures WordsOf(tail + BytesOf(lo) + BytesOf(hi), 16) == WordsOf(tail, 14) + [lo, hi]
  {
    WordOfBytes(lo);
    WordOfBytes(hi);
    var block := tail + BytesOf(lo) + BytesOf(hi);
    hide BytesOf, WordFrom;
    forall i | 0 <= i < 14 ensures WordAt(block, 4 * i) == WordAt(tail, 4 * i) {
    }
    assert WordAt(block, 56) == WordAt(BytesOf(lo), 0);
    assert WordAt(block, 60) == WordAt(BytesOf(hi), 0);
  }

  /** Transforming the padded tail with the saved bit count gives the digest of the whole message. */
  lemma LastBlock(t: Transform, m: seq<Byte>, p: seq<Byte>, lo: Word, hi: Word)
    requires p == m + Padding(|m|) && Counts(lo, hi, |m|)
    ensures |p| % 64 == 56 && |Tail(p)| == 56
    ensures Output(t(Whole(t, p), WordsOf(Tail(p), 14) + [lo, hi])) == Digest(t, m)
  {
    var s, n := Padded(m), Blocks(p);
    hide Padding, Output, WordsOf;
    assert s == p + LengthField(|m|);
    assert |s| == 64 * (n + 1);
    FoldOfPrefix(t, p, LengthField(|m|), n);
    LengthIsCount(lo, hi, |m|);
    hide LengthField, BytesOf;
    assert s[64 * n..64 * (n + 1)] == Tail(p) + BytesOf(lo) + BytesOf(hi);
    WordsOfLast(Tail(p), lo, hi);
  }

  lemma LengthIsCount(lo: Word, hi: Word, length: nat)
    requires Counts(lo, hi, length)
    ensures LengthField(length) == BytesOf(lo) + BytesOf(hi)
  {
  }

  // ---------- the context ----------

  class Context {
    const transform: Transform
    var lo: Word
    var hi: Word
    var buf: Chain
    const input: array<Byte>
    var digest: seq<Byte>
    /** All bytes given since the start. */
    ghost var message: seq<Byte>

    /** The words are those of the whole blocks so far, the buffer starts with the rest, and the count
        is right modulo 2^64. */
    ghost predicate Valid()
      reads this, input
    {
      && input.Length == 64 && Counts(lo, hi, |message|)
      && buf == Whole(transform, message)
      && input[..|message| % 64] == Tail(message)
    }

    /** MD5Init. */
    constructor (transform: Transform)
      ensures Valid() && message == [] && fresh(input) && this.transform == transform
    {
      this.transform := transform;
      lo, hi := 0, 0;
      buf := INIT;
      input := new Byte[64](i => 0);
      digest := [];
      message := [];
    }

    /** The bytes of the buffer as words. */
    method Decode(n: nat) returns (words: seq<Word>)
      requires input.Length == 64 && n <= 16
      ensures words == WordsOf(input[..4 * n], n)
    {
      hide WordFrom;
      words := [];
      for i := 0 to n
        invariant |words| == i
        invariant forall k :: 0 <= k < i ==> words[k] == WordAt(input[..4 * n], 4 * k)
      {
        words := words + [WordFrom(input[4 * i], input[4 * i + 1], input[4 * i + 2], input[4 * i + 3])];
      }
    }

    /** The part of MD5Update that counts. */
    method Count(length: nat)
      requires length < WORD && Counts(lo, hi, |message|)
      modifies `lo, `hi
      ensures Counts(lo, hi, |message| + length)
    {
      CountAdds(lo, hi, |message|, length);
      hide Counts;
      var add := 8 * length % WORD;
      var sum := (lo + add) % WORD;
      var carry := if sum < lo then 1 else 0;
      lo := sum;
      hi := (hi + carry + length / 0x2000_0000) % WORD;
    }

    /** The body of MD5Update's loop. */
    method Absorb(b: Byte, mdi: nat, ghost m: seq<Byte>) returns (next: nat)
      requires input.Length == 64 && mdi == |m| % 64
      requires buf == Whole(transform, m) && input[..mdi] == Tail(m)
      modifies `buf, input
      ensures next == |m + [b]| % 64
      ensures buf == Whole(transform, m + [b]) && input[..next] == Tail(m + [b])
    {
      NextByte(transform, m, b);
      ghost var tail := Tail(m);
      hide Whole, Tail, WordsOf;
      input[mdi] := b;
      assert input[..mdi + 1] == tail + [b];
      next := mdi + 1;
      if next == 64 {
        assert input[..64] == tail + [b];
        var words := Decode(16);
        buf := transform(buf, words);
        next := 0;
      }
    }

    /** MD5Update's loop. */
    method AbsorbAll(inBuf: seq<Byte>, start: nat, ghost m: seq<Byte>)
      requires input.Length == 64 && start == |m| % 64
      requires buf == Whole(transform, m) && input[..start] == Tail(m)
      modifies `buf, input
      ensures buf == Whole(transform, m + inBuf) && input[..|m + inBuf| % 64] == Tail(m + inBuf)
    {
      hide Whole, Tail;
      var mdi := start;
      assert m + inBuf[..0] == m;
      for i := 0 to |inBuf|
        modifies `buf, input
        invariant mdi == |m + inBuf[..i]| % 64
        invariant buf == Whole(transform, m + inBuf[..i]) && input[..mdi] == Tail(m + inBuf[..i])
      {
        assert m + inBuf[..i] + [inBuf[i]] == m + inBuf[..i + 1];
        mdi := Absorb(inBuf[i], mdi, m + inBuf[..i]);
      }
      assert inBuf[..|inBuf|] == inBuf;
    }

    /** MD5Update: the bytes join the message, in however many calls they come. */
    method Update(inBuf: seq<Byte>)
      requires Valid() && |inBuf| < WORD
      modifies this, input
      ensures Valid() && message == old(message) + inBuf
      ensures digest == old(digest)
    {
      PositionOf(lo, hi, |message|);
      hide Counts, Whole, Tail;
      var mdi := lo / 8 % 64;
      Count(|inBuf|);
      AbsorbAll(inBuf, mdi, message);
      message := message + inBuf;
    }

    /** MD5Final: the digest of the message that was given. */
    method Final()
      requires Valid()
      modifies this, input
      ensures digest == Digest(transform, old(message))
    {
      ghost var m := message;
      PositionOf(lo, hi, |message|);
      hide Digest, Whole, Tail, WordsOf, Output;
      var in14, in15 := lo, hi;
      var mdi := lo / 8 % 64;
      var padLen := if mdi < 56 then 56 - mdi else 120 - mdi;
      var padding: seq<Byte> := [0x80] + seq(63, i => 0);
      PaddingIs(|m|, mdi, padding, padLen);
      Update(padding[..padLen]);
      LastBlock(transform, m, message, in14, in15);
      hide Counts, Padding;
      var words := Decode(14);
      assert input[..56] == Tail(message);
      buf := transform(buf, words + [in14, in15]);
      digest := Output(buf);
    }
  }

  lemma PaddingIs(length: nat, mdi: nat, padding: seq<Byte>, padLen: nat)
    requires mdi == length % 64 && padLen == (if mdi < 56 then 56 - mdi else 120 - mdi)
    requires |padding| == 64 && padding[0] == 0x80 && forall i :: 1 <= i < 64 ==> padding[i] == 0
    ensures padding[..padLen] == Padding(length)
  {
  }

  /** HSH_Hash: a second part makes no difference to how the message is read. */
  method Hash(transform: Transform, in1: seq<Byte>, in2: seq<Byte>, hasSecond: bool, outLen: nat)
    returns (out: seq<Byte>)
    requires |in1| < WORD && |in2| < WORD
    ensures out == if outLen < 16 then [] else Digest(transform, if hasSecond then in1 + in2 else in1)
  {
    if outLen < 16 {
      return [];
    }
    hide Digest;
    var context := new Context(transform);
    context.Update(in1);
    if hasSecond {
      context.Update(in2);
    }
    assert [] + in1 == in1;
    context.Final();
    out := context.digest;
  }
}
