/** BITPOS a word at a time finds the bit that a search bit by bit finds. */
module Bitpos {
  import opened Resp
  import opened Bits

  /** The first position from i on that holds the bit; a string of ones is followed by a zero, a
      string of zeros by nothing. */
  function First(s: Bytes, bit: nat, i: nat): int
    requires i <= 8 * |s|
    decreases 8 * |s| - i
  {
    if i == 8 * |s| then (if bit == 1 then -1 else i)
    else if BitAt(s, i) == bit then i
    else First(s, bit, i + 1)
  }

  lemma {:induction false} FirstSkips(s: Bytes, bit: nat, i: nat, j: nat)
    requires i <= j <= 8 * |s| && forall k | i <= k < j :: BitAt(s, k) != bit
    ensures First(s, bit, i) == First(s, bit, j)
    decreases j - i
  {
    hide BitAt;
    if i < j { FirstSkips(s, bit, i + 1, j); }
  }

  // ---------- digits of bytes and words ----------

  /** The byte that holds only the other bit. */
  function SkipByte(bit: nat): Byte { if bit == 1 then 0 else 255 }

  lemma {:induction false} SplitDigit(w: nat, n: nat, b: nat, k: nat)
    requires b < Pow2(n)
    ensures Digit(w * Pow2(n) + b, k) == if k < n then Digit(b, k) else Digit(w, k - n)
    decreases n
  {
    if n > 0 {
      var x := w * Pow2(n) + b;
      var y := w * Pow2(n - 1);
      assert x == 2 * y + b by { assert w * (2 * Pow2(n - 1)) == 2 * (w * Pow2(n - 1)); }
      assert x / 2 == y + b / 2 && x % 2 == b % 2;
      if k > 0 { SplitDigit(w, n - 1, b / 2, k - 1); }
    }
  }

  lemma {:induction false} AllDigits(x: nat, n: nat, d: nat)
    requires x < Pow2(n) && d < 2 && forall k | 0 <= k < n :: Digit(x, k) == d
    ensures x == d * (Pow2(n) - 1)
    decreases n
  {
    if n > 0 {
      assert Digit(x, 0) == d;
      forall k | 0 <= k < n - 1 ensures Digit(x / 2, k) == d { assert Digit(x, k + 1) == d; }
      AllDigits(x / 2, n - 1, d);
    }
  }

  lemma ByteIs256()
    ensures Pow2(8) == 256
  {
    assert Pow2(4) == 16;
    Pow2Add(4, 4);
  }

  lemma {:induction false} DigitsOfZero(k: nat)
    ensures Digit(0, k) == 0
  {
    if k > 0 { DigitsOfZero(k - 1); }
  }

  lemma {:induction false} DigitsOfOnes(n: nat, k: nat)
    requires k < n
    ensures Digit(Pow2(n) - 1, k) == 1
  {
    if k > 0 {
      assert (Pow2(n) - 1) / 2 == Pow2(n - 1) - 1;
      DigitsOfOnes(n - 1, k - 1);
    }
  }

  /** A skipped byte holds no wanted bit. */
  lemma SkipDigits(bit: nat, k: nat)
    requires bit < 2 && k < 8
    ensures Digit(SkipByte(bit), k) != bit
  {
    hide Digit;
    ByteIs256();
    DigitsOfZero(k);
    DigitsOfOnes(8, k);
  }

  /** Any other byte holds one. */
  lemma OtherByte(b: Byte, bit: nat)
    requires bit < 2 && b != SkipByte(bit)
    ensures exists k :: 0 <= k < 8 && Digit(b, k) == bit
  {
    hide Digit;
    ByteIs256();
    if forall k | 0 <= k < 8 :: Digit(b, k) != bit {
      forall k | 0 <= k < 8 ensures Digit(b, k) == 1 - bit { assert Digit(b, k) != bit; }
      AllDigits(b, 8, 1 - bit);
    }
  }

  // ---------- the word ----------

  /** Byte i of the string, zero past its end. */
  function PadByte(s: Bytes, i: nat): Byte { if i < |s| then s[i] else 0 }

  function PadBit(s: Bytes, i: nat): nat { Digit(PadByte(s, i / 8), 7 - i % 8) }

  /** The first j bytes from c on, the first one most significant. */
  function Word(s: Bytes, c: nat, j: nat): nat {
    if j == 0 then 0 else Word(s, c, j - 1) * 256 + PadByte(s, c + j - 1)
  }

  lemma {:induction false} WordBound(s: Bytes, c: nat, j: nat)
    ensures Word(s, c, j) < Pow2(8 * j)
  {
    hide PadByte;
    if j > 0 {
      WordBound(s, c, j - 1);
      ByteIs256();
      Pow2Add(8, 8 * (j - 1));
    }
  }

  lemma Split8(w: nat, b: Byte, k: nat)
    ensures Digit(w * 256 + b, k) == if k < 8 then Digit(b, k) else Digit(w, k - 8)
  {
    hide Digit;
    ByteIs256();
    SplitDigit(w, 8, b, k);
  }

  lemma Position(c: nat, j: nat, t: nat)
    requires j > 0 && 8 * (j - 1) <= t < 8 * j
    ensures (8 * c + t) / 8 == c + j - 1 && 7 - (8 * c + t) % 8 == 8 * j - 1 - t
  {
  }

  lemma {:induction false} WordDigits(s: Bytes, c: nat, j: nat, t: nat)
    requires t < 8 * j
    ensures Digit(Word(s, c, j), 8 * j - 1 - t) == PadBit(s, 8 * c + t)
    decreases j
  {
    hide Digit;
    Split8(Word(s, c, j - 1), PadByte(s, c + j - 1), 8 * j - 1 - t);
    if t < 8 * (j - 1) {
      WordDigits(s, c, j - 1, t);
    } else {
      Position(c, j, t);
    }
  }

  lemma PadIsBit(s: Bytes, i: nat)
    ensures i < 8 * |s| ==> PadBit(s, i) == BitAt(s, i)
    ensures i >= 8 * |s| ==> PadBit(s, i) == 0
  {
    hide Digit;
    DigitsOfZero(7 - i % 8);
  }

  /** The bytes before c hold only the other bit. */
  predicate Skipped(s: Bytes, bit: nat, c: nat) {
    c <= |s| && forall i | 0 <= i < c :: s[i] == SkipByte(bit)
  }

  lemma SkippedBits(s: Bytes, bit: nat, c: nat)
    requires bit < 2 && Skipped(s, bit, c)
    ensures First(s, bit, 0) == First(s, bit, 8 * c)
  {
    hide Digit, SkipByte;
    forall k | 0 <= k < 8 * c ensures BitAt(s, k) != bit { SkipDigits(bit, 7 - k % 8); }
    FirstSkips(s, bit, 0, 8 * c);
  }

  /** Within the word at c there is a wanted bit, or the string ends there. */
  predicate Stops(s: Bytes, bit: nat, c: nat) {
    c <= |s| && (|s| - c < 8 || exists i | c <= i < c + 8 :: s[i] != SkipByte(bit))
  }

  lemma StopsBit(s: Bytes, bit: nat, c: nat)
    requires bit < 2 && Stops(s, bit, c) && (bit == 0 || Word(s, c, 8) != 0)
    ensures exists i :: 8 * c <= i < 8 * c + 64 && PadBit(s, i) == bit
  {
    hide Digit, SkipByte, Word, PadBit;
    if bit == 1 {
      if forall i | 8 * c <= i < 8 * c + 64 :: PadBit(s, i) != bit {
        forall k | 0 <= k < 64 ensures Digit(Word(s, c, 8), k) == 0 {
          WordDigits(s, c, 8, 63 - k);
          assert PadBit(s, 8 * c + (63 - k)) != bit;
        }
        WordBound(s, c, 8);
        AllDigits(Word(s, c, 8), 64, 0);
      }
    } else if |s| - c < 8 {
      PadIsBit(s, 8 * |s|);
    } else {
      var i :| c <= i < c + 8 && s[i] != SkipByte(bit);
      OtherByte(s[i], bit);
      var k :| 0 <= k < 8 && Digit(s[i], k) == bit;
      ByteBit(s, i, k);
    }
  }

  lemma ByteBit(s: Bytes, i: nat, k: nat)
    requires i < |s| && k < 8
    ensures PadBit(s, 8 * i + 7 - k) == Digit(s[i], k)
  {
    hide Digit;
    var j := 8 * i + 7 - k;
    assert j / 8 == i && 7 - j % 8 == k;
  }

  /** A zero word where the search stops means that no bit is set from there on. */
  lemma ZeroWord(s: Bytes, c: nat)
    requires Stops(s, 1, c) && Word(s, c, 8) == 0
    ensures First(s, 1, 8 * c) == -1
  {
    hide Digit, Word, PadBit;
    forall i | 8 * c <= i < 8 * c + 64 ensures PadBit(s, i) == 0 {
      WordDigits(s, c, 8, i - 8 * c);
      DigitsOfZero(63 - (i - 8 * c));
    }
    if |s| - c >= 8 { NonZeroByte(s, c); }
    forall k | 8 * c <= k < 8 * |s| ensures BitAt(s, k) != 1 { PadIsBit(s, k); }
    FirstSkips(s, 1, 8 * c, 8 * |s|);
  }

  lemma NonZeroByte(s: Bytes, c: nat)
    requires c + 8 <= |s| && exists i | c <= i < c + 8 :: s[i] != SkipByte(1)
    ensures exists i :: 8 * c <= i < 8 * c + 64 && PadBit(s, i) == 1
  {
    hide Digit, PadBit;
    var i :| c <= i < c + 8 && s[i] != SkipByte(1);
    OtherByte(s[i], 1);
    var k :| 0 <= k < 8 && Digit(s[i], k) == 1;
    ByteBit(s, i, k);
  }

  /** The first wanted bit of the padded word is the first of the string. */
  lemma FoundBit(s: Bytes, bit: nat, c: nat, i: nat)
    requires bit < 2 && c <= |s| && 8 * c <= i && PadBit(s, i) == bit
    requires forall k | 8 * c <= k < i :: PadBit(s, k) != bit
    ensures First(s, bit, 8 * c) == i
  {
    hide BitAt, PadBit;
    PadIsBit(s, 8 * |s|);
    PadIsBit(s, i);
    forall k | 8 * c <= k < i && k < 8 * |s| ensures BitAt(s, k) != bit { PadIsBit(s, k); }
    FirstSkips(s, bit, 8 * c, i);
  }

  /** redisBitpos on a string whose address is align modulo 8. */
  method RedisBitpos(s: Bytes, align: nat, bit: nat) returns (pos: int)
    requires bit < 2
    ensures pos == First(s, bit, 0)
  {
    hide Digit, Word, First, PadBit;
    var c := 0;
    var found := false;
    pos := 0;
    while (align + c) % 8 != 0 && c < |s|
      invariant Skipped(s, bit, c) && pos == 8 * c && !found
      decreases |s| - c
    {
      if s[c] != SkipByte(bit) {
        found := true;
        break;
      }
      c := c + 1;
      pos := pos + 8;
    }
    if !found {
      while |s| - c >= 8
        invariant Skipped(s, bit, c) && pos == 8 * c
      {
        if exists i | c <= i < c + 8 :: s[i] != SkipByte(bit) { break; }
        c := c + 8;
        pos := pos + 64;
      }
    }
    assert Stops(s, bit, c);
    SkippedBits(s, bit, c);
    var word := LoadWord(s, c);
    if bit == 1 && word == 0 {
      ZeroWord(s, c);
      return -1;
    }
    StopsBit(s, bit, c);
    for t := 0 to 64
      invariant pos == 8 * c + t
      invariant forall k | 8 * c <= k < 8 * c + t :: PadBit(s, k) != bit
    {
      WordDigits(s, c, 8, t);
      if Digit(word, 63 - t) == bit {
        FoundBit(s, bit, c, pos);
        return;
      }
      pos := pos + 1;
    }
  }

  /** The bytes left, most significant first, padded with zeros on the right. */
  method LoadWord(s: Bytes, start: nat) returns (word: nat)
    requires start <= |s|
    ensures word == Word(s, start, 8)
  {
    var c := start;
    word := 0;
    for j := 0 to 8
      invariant word == Word(s, start, j) && c == if start + j <= |s| then start + j else |s|
    {
      word := word * 256;
      if c < |s| {
        word := word + s[c];
        c := c + 1;
      }
    }
  }
}
