/** BITCOUNT and BITOP a word at a time compute what the byte by byte definitions compute. */
module Bitop {

  // ---------- counting ----------

  function Bit(b: bv8): nat { if b == 1 then 1 else 0 }

  /** The number of one bits of a byte. */
  function Pop(b: bv8): nat {
    Bit(b & 1) + Bit((b >> 1) & 1) + Bit((b >> 2) & 1) + Bit((b >> 3) & 1)
    + Bit((b >> 4) & 1) + Bit((b >> 5) & 1) + Bit((b >> 6) & 1) + Bit((b >> 7) & 1)
  }

  function Count(s: seq<bv8>): nat { if s == [] then 0 else Count(s[..|s| - 1]) + Pop(s[|s| - 1]) }

  /** The steps that leave in each byte the number of its one bits. */
  function Lanes(x: bv32): bv32 {
    var y := x - ((x >> 1) & 0x55555555);
    var z := (y & 0x33333333) + ((y >> 2) & 0x33333333);
    (z + (z >> 4)) & 0x0F0F0F0F
  }

  /** The same on one byte. */
  function Lane(x: bv8): bv8 {
    var y := x - ((x >> 1) & 0x55);
    var z := (y & 0x33) + ((y >> 2) & 0x33);
    (z + (z >> 4)) & 0x0F
  }

  function Byte0(x: bv32): bv8 { (x & 0xFF) as bv8 }

  function Byte1(x: bv32): bv8 { ((x >> 8) & 0xFF) as bv8 }

  function Byte2(x: bv32): bv8 { ((x >> 16) & 0xFF) as bv8 }

  function Byte3(x: bv32): bv8 { ((x >> 24) & 0xFF) as bv8 }

  function Pack(a: bv8, b: bv8, c: bv8, d: bv8): bv32 {
    (a as bv32) | ((b as bv32) << 8) | ((c as bv32) << 16) | ((d as bv32) << 24)
  }

  /** The value of a word, from its bytes. */
  function Value(x: bv32): nat {
    Byte0(x) as nat + 0x100 * (Byte1(x) as nat) + 0x10000 * (Byte2(x) as nat) + 0x1000000 * (Byte3(x) as nat)
  }

  lemma Lanes0(x: bv32)
    ensures Byte0(Lanes(x)) == Lane(Byte0(x))
  {
  }

  lemma Lanes1(x: bv32)
    ensures Byte1(Lanes(x)) == Lane(Byte1(x))
  {
  }

  lemma Lanes2(x: bv32)
    ensures Byte2(Lanes(x)) == Lane(Byte2(x))
  {
  }

  lemma Lanes3(x: bv32)
    ensures Byte3(Lanes(x)) == Lane(Byte3(x))
  {
  }

  lemma LanePop(b: bv8)
    ensures Lane(b) as nat == Pop(b)
  {
  }

  lemma PopSmall(b: bv8)
    ensures Pop(b) <= 8
  {
  }

  lemma PackBytes(a: bv8, b: bv8, c: bv8, d: bv8)
    ensures Byte0(Pack(a, b, c, d)) == a && Byte1(Pack(a, b, c, d)) == b
    ensures Byte2(Pack(a, b, c, d)) == c && Byte3(Pack(a, b, c, d)) == d
  {
  }

  /** The counts of the four bytes of a word, in the four bytes of a word. */
  lemma LanesValue(a: bv8, b: bv8, c: bv8, d: bv8)
    ensures Value(Lanes(Pack(a, b, c, d))) == Pop(a) + 0x100 * Pop(b) + 0x10000 * Pop(c) + 0x1000000 * Pop(d)
  {
    hide Lanes, Pack, Byte0, Byte1, Byte2, Byte3, Pop, Lane;
    var x := Pack(a, b, c, d);
    PackBytes(a, b, c, d);
    Lanes0(x);
    Lanes1(x);
    Lanes2(x);
    Lanes3(x);
    LanePop(a);
    LanePop(b);
    LanePop(c);
    LanePop(d);
  }

  const TWO32: nat := 0x1_0000_0000

  /** Multiplying by 0x01010101 adds all bytes up in the top one. */
  function Gather(x: nat): nat { x * 0x01010101 % TWO32 / 0x1000000 }

  lemma TopByte(p: nat, q: nat, t: nat, r: nat)
    requires p == q * TWO32 + t * 0x1000000 + r && t < 256 && r < 0x1000000
    ensures p % TWO32 / 0x1000000 == t
  {
  }

  lemma GatherSums(a: nat, b: nat, c: nat, d: nat)
    requires a <= 56 && b <= 56 && c <= 56 && d <= 56
    ensures Gather((a + 0x100 * b + 0x10000 * c + 0x1000000 * d) % TWO32) == a + b + c + d
  {
    var x := a + 0x100 * b + 0x10000 * c + 0x1000000 * d;
    assert x < TWO32;
    TopByte(x * 0x01010101, d * 0x10101 + c * 0x101 + b, a + b + c + d, a + 0x100 * (a + b) + 0x10000 * (a + b + c));
  }

  /** Word k of the 28 bytes at p. */
  function Word(s: seq<bv8>, p: nat, k: nat): bv32
    requires p + 4 * k + 4 <= |s|
  {
    Pack(s[p + 4 * k], s[p + 4 * k + 1], s[p + 4 * k + 2], s[p + 4 * k + 3])
  }

  /** Byte m of the first n words, counted. */
  function Column(s: seq<bv8>, p: nat, n: nat, m: nat): nat
    requires p + 4 * n <= |s| && m < 4
  {
    if n == 0 then 0 else Column(s, p, n - 1, m) + Pop(s[p + 4 * (n - 1) + m])
  }

  function LaneSum(s: seq<bv8>, p: nat, n: nat): nat
    requires p + 4 * n <= |s|
  {
    if n == 0 then 0 else LaneSum(s, p, n - 1) + Value(Lanes(Word(s, p, n - 1)))
  }

  lemma ColumnNext(s: seq<bv8>, p: nat, n: nat)
    requires p + 4 * n + 4 <= |s|
    ensures Column(s, p, n + 1, 0) == Column(s, p, n, 0) + Pop(s[p + 4 * n])
    ensures Column(s, p, n + 1, 1) == Column(s, p, n, 1) + Pop(s[p + 4 * n + 1])
    ensures Column(s, p, n + 1, 2) == Column(s, p, n, 2) + Pop(s[p + 4 * n + 2])
    ensures Column(s, p, n + 1, 3) == Column(s, p, n, 3) + Pop(s[p + 4 * n + 3])
  {
    hide Pop;
  }

  lemma {:induction false} ColumnBound(s: seq<bv8>, p: nat, n: nat, m: nat)
    requires p + 4 * n <= |s| && m < 4
    ensures Column(s, p, n, m) <= 8 * n
  {
    hide Pop;
    if n > 0 {
      ColumnBound(s, p, n - 1, m);
      PopSmall(s[p + 4 * (n - 1) + m]);
    }
  }

  lemma LaneSumNext(s: seq<bv8>, p: nat, n: nat)
    requires p + 4 * n + 4 <= |s|
    ensures LaneSum(s, p, n + 1) == LaneSum(s, p, n) + Pop(s[p + 4 * n]) + 0x100 * Pop(s[p + 4 * n + 1])
                                    + 0x10000 * Pop(s[p + 4 * n + 2]) + 0x1000000 * Pop(s[p + 4 * n + 3])
  {
    hide Value, Lanes, Pack, Pop;
    var i := p + 4 * n;
    LanesValue(s[i], s[i + 1], s[i + 2], s[i + 3]);
  }

  lemma {:induction false} LaneSumIs(s: seq<bv8>, p: nat, n: nat)
    requires p + 4 * n <= |s|
    ensures LaneSum(s, p, n) == Column(s, p, n, 0) + 0x100 * Column(s, p, n, 1) + 0x10000 * Column(s, p, n, 2)
                                + 0x1000000 * Column(s, p, n, 3)
  {
    hide Pop, Value, Lanes;
    if n > 0 {
      LaneSumIs(s, p, n - 1);
      LaneSumStep(s, p, n - 1);
    }
  }

  lemma LaneSumStep(s: seq<bv8>, p: nat, n: nat)
    requires p + 4 * n + 4 <= |s|
    requires LaneSum(s, p, n) == Column(s, p, n, 0) + 0x100 * Column(s, p, n, 1) + 0x10000 * Column(s, p, n, 2)
                                 + 0x1000000 * Column(s, p, n, 3)
    ensures LaneSum(s, p, n + 1)
            == Column(s, p, n + 1, 0) + 0x100 * Column(s, p, n + 1, 1) + 0x10000 * Column(s, p, n + 1, 2)
               + 0x1000000 * Column(s, p, n + 1, 3)
  {
    hide Pop, Column, LaneSum;
    LaneSumNext(s, p, n);
    ColumnNext(s, p, n);
  }

  lemma CountNext(s: seq<bv8>, i: nat)
    requires i < |s|
    ensures Count(s[..i + 1]) == Count(s[..i]) + Pop(s[i])
  {
    hide Pop;
    assert s[..i + 1][..i] == s[..i];
  }

  lemma CountFour(s: seq<bv8>, i: nat)
    requires i + 4 <= |s|
    ensures Count(s[..i + 4]) == Count(s[..i]) + Pop(s[i]) + Pop(s[i + 1]) + Pop(s[i + 2]) + Pop(s[i + 3])
  {
    hide Pop, Count;
    CountNext(s, i);
    CountNext(s, i + 1);
    CountNext(s, i + 2);
    CountNext(s, i + 3);
  }

  lemma {:induction false} CountWords(s: seq<bv8>, p: nat, n: nat)
    requires p + 4 * n <= |s|
    ensures Count(s[..p + 4 * n])
            == Count(s[..p]) + Column(s, p, n, 0) + Column(s, p, n, 1) + Column(s, p, n, 2) + Column(s, p, n, 3)
    decreases n
  {
    hide Pop, Count, Column;
    if n == 0 {
      NoColumns(s, p);
    } else {
      CountWords(s, p, n - 1);
      CountStep(s, p, n - 1);
    }
  }

  lemma NoColumns(s: seq<bv8>, p: nat)
    requires p <= |s|
    ensures forall m | 0 <= m < 4 :: Column(s, p, 0, m) == 0
  {
  }

  lemma CountStep(s: seq<bv8>, p: nat, n: nat)
    requires p + 4 * n + 4 <= |s|
    requires Count(s[..p + 4 * n])
             == Count(s[..p]) + Column(s, p, n, 0) + Column(s, p, n, 1) + Column(s, p, n, 2) + Column(s, p, n, 3)
    ensures Count(s[..p + 4 * (n + 1)])
            == Count(s[..p]) + Column(s, p, n + 1, 0) + Column(s, p, n + 1, 1) + Column(s, p, n + 1, 2)
               + Column(s, p, n + 1, 3)
  {
    hide Pop, Count, Column;
    CountFour(s, p + 4 * n);
    ColumnNext(s, p, n);
  }

  lemma ChunkCount(s: seq<bv8>, p: nat)
    requires p + 28 <= |s|
    ensures Count(s[..p + 28]) == Count(s[..p]) + Gather(LaneSum(s, p, 7) % TWO32)
  {
    hide Count, Column, LaneSum, Gather;
    LaneSumIs(s, p, 7);
    CountWords(s, p, 7);
    ColumnBound(s, p, 7, 0);
    ColumnBound(s, p, 7, 1);
    ColumnBound(s, p, 7, 2);
    ColumnBound(s, p, 7, 3);
    GatherSums(Column(s, p, 7, 0), Column(s, p, 7, 1), Column(s, p, 7, 2), Column(s, p, 7, 3));
  }

  /** redisPopcount on a string whose address is align modulo 4. */
  method RedisPopcount(s: seq<bv8>, align: nat) returns (bits: nat)
    ensures bits == Count(s)
  {
    hide Pop, Count, LaneSum, Gather;
    bits := 0;
    var p := 0;
    NoBits();
    assert s[..0] == [];
    while (align + p) % 4 != 0 && p < |s|
      invariant p <= |s| && bits == Count(s[..p])
      decreases |s| - p
    {
      CountNext(s, p);
      bits := bits + Pop(s[p]);
      p := p + 1;
    }
    while |s| - p >= 28
      invariant p <= |s| && bits == Count(s[..p])
    {
      ChunkCount(s, p);
      var sum := SevenWords(s, p);
      bits := bits + Gather(sum);
      p := p + 28;
    }
    while p < |s|
      invariant p <= |s| && bits == Count(s[..p])
    {
      CountNext(s, p);
      bits := bits + Pop(s[p]);
      p := p + 1;
    }
    assert s[..p] == s;
  }

  /** The counts of the bytes of seven words, added up word-wise. */
  method SevenWords(s: seq<bv8>, p: nat) returns (sum: nat)
    requires p + 28 <= |s|
    ensures sum == LaneSum(s, p, 7) % TWO32
  {
    hide Value, Lanes, Word;
    sum := 0;
    for k := 0 to 7
      invariant sum == LaneSum(s, p, k)
    {
      sum := sum + Value(Lanes(Word(s, p, k)));
    }
    sum := sum % TWO32;
  }

  lemma NoBits()
    ensures Count([]) == 0
  {
  }

  // ---------- BITOP ----------

  datatype Operation = And | Or | Xor | Not

  function And8(a: bv8, b: bv8): bv8 { a & b }

  function Or8(a: bv8, b: bv8): bv8 { a | b }

  function Xor8(a: bv8, b: bv8): bv8 { a ^ b }

  function And64(x: bv64, y: bv64): bv64 { x & y }

  function Or64(x: bv64, y: bv64): bv64 { x | y }

  function Xor64(x: bv64, y: bv64): bv64 { x ^ y }

  function Apply(op: Operation, a: bv8, b: bv8): bv8 {
    match op
    case And => And8(a, b)
    case Or => Or8(a, b)
    case Xor => Xor8(a, b)
    case Not => a
  }

  function Inverse(a: bv8): bv8 { !a }

  function Inverted(x: bv64): bv64 { !x }

  function Pad(s: seq<bv8>, j: nat): bv8 { if j < |s| then s[j] else 0 }

  /** Byte j of the first n sources combined; a missing key is an empty source. */
  function Combined(op: Operation, srcs: seq<seq<bv8>>, n: nat, j: nat): bv8
    requires 1 <= n <= |srcs|
  {
    if n == 1 then (if op.Not? then Inverse(Pad(srcs[0], j)) else Pad(srcs[0], j))
    else Apply(op, Combined(op, srcs, n - 1, j), Pad(srcs[n - 1], j))
  }

  datatype Source = Missing | Text(s: seq<bv8>)

  function Bytes(k: Source): seq<bv8> { if k.Missing? then [] else k.s }

  function SourcesOf(keys: seq<Source>): (r: seq<seq<bv8>>)
    ensures |r| == |keys| && forall i | 0 <= i < |keys| :: r[i] == Bytes(keys[i])
  {
    seq(|keys|, i requires 0 <= i < |keys| => Bytes(keys[i]))
  }

  function MaxLen(srcs: seq<seq<bv8>>): nat {
    if srcs == [] then 0
    else
      var m, n := MaxLen(srcs[..|srcs| - 1]), |srcs[|srcs| - 1]|;
      if n > m then n else m
  }

  function MinLen(srcs: seq<seq<bv8>>): nat
    requires srcs != []
  {
    var n := |srcs[|srcs| - 1]|;
    if |srcs| == 1 then n
    else
      var m := MinLen(srcs[..|srcs| - 1]);
      if n < m then n else m
  }

  lemma {:induction false} Lengths(srcs: seq<seq<bv8>>, i: nat)
    requires i < |srcs|
    ensures MinLen(srcs) <= |srcs[i]| <= MaxLen(srcs)
  {
    if i < |srcs| - 1 { Lengths(srcs[..|srcs| - 1], i); }
  }

  // A word is eight bytes.

  function Pack8(a: bv8, b: bv8, c: bv8, d: bv8, e: bv8, f: bv8, g: bv8, h: bv8): bv64 {
    (a as bv64) | ((b as bv64) << 8) | ((c as bv64) << 16) | ((d as bv64) << 24)
    | ((e as bv64) << 32) | ((f as bv64) << 40) | ((g as bv64) << 48) | ((h as bv64) << 56)
  }

  function Octet0(x: bv64): bv8 { (x & 0xFF) as bv8 }

  function Octet1(x: bv64): bv8 { ((x >> 8) & 0xFF) as bv8 }

  function Octet2(x: bv64): bv8 { ((x >> 16) & 0xFF) as bv8 }

  function Octet3(x: bv64): bv8 { ((x >> 24) & 0xFF) as bv8 }

  function Octet4(x: bv64): bv8 { ((x >> 32) & 0xFF) as bv8 }

  function Octet5(x: bv64): bv8 { ((x >> 40) & 0xFF) as bv8 }

  function Octet6(x: bv64): bv8 { ((x >> 48) & 0xFF) as bv8 }

  function Octet7(x: bv64): bv8 { ((x >> 56) & 0xFF) as bv8 }

  function ByteOf(x: bv64, k: nat): bv8
    requires k < 8
  {
    if k == 0 then Octet0(x)
    else if k == 1 then Octet1(x)
    else if k == 2 then Octet2(x)
    else if k == 3 then Octet3(x)
    else if k == 4 then Octet4(x)
    else if k == 5 then Octet5(x)
    else if k == 6 then Octet6(x)
    else Octet7(x)
  }

  function Load(s: seq<bv8>, i: nat): bv64
    requires i + 8 <= |s|
  {
    Pack8(s[i], s[i + 1], s[i + 2], s[i + 3], s[i + 4], s[i + 5], s[i + 6], s[i + 7])
  }

  function ApplyWord(op: Operation, x: bv64, y: bv64): bv64 {
    match op
    case And => And64(x, y)
    case Or => Or64(x, y)
    case Xor => Xor64(x, y)
    case Not => x
  }

  lemma PackedBytes(a: bv8, b: bv8, c: bv8, d: bv8, e: bv8, f: bv8, g: bv8, h: bv8)
    ensures var x := Pack8(a, b, c, d, e, f, g, h);
            && ByteOf(x, 0) == a && ByteOf(x, 1) == b && ByteOf(x, 2) == c && ByteOf(x, 3) == d
            && ByteOf(x, 4) == e && ByteOf(x, 5) == f && ByteOf(x, 6) == g && ByteOf(x, 7) == h
  {
  }

  lemma LoadedByte(s: seq<bv8>, i: nat, k: nat)
    requires i + 8 <= |s| && k < 8
    ensures ByteOf(Load(s, i), k) == s[i + k]
  {
    hide Pack8, ByteOf;
    PackedBytes(s[i], s[i + 1], s[i + 2], s[i + 3], s[i + 4], s[i + 5], s[i + 6], s[i + 7]);
  }

  lemma AndOctets(x: bv64, y: bv64)
    ensures Octet0(And64(x, y)) == And8(Octet0(x), Octet0(y))
    ensures Octet1(And64(x, y)) == And8(Octet1(x), Octet1(y))
    ensures Octet2(And64(x, y)) == And8(Octet2(x), Octet2(y))
    ensures Octet3(And64(x, y)) == And8(Octet3(x), Octet3(y))
    ensures Octet4(And64(x, y)) == And8(Octet4(x), Octet4(y))
    ensures Octet5(And64(x, y)) == And8(Octet5(x), Octet5(y))
    ensures Octet6(And64(x, y)) == And8(Octet6(x), Octet6(y))
    ensures Octet7(And64(x, y)) == And8(Octet7(x), Octet7(y))
  {
  }

  lemma OrBits(x: bv64, y: bv64)
    ensures Octet0(x | y) == Octet0(x) | Octet0(y)
    ensures Octet1(x | y) == Octet1(x) | Octet1(y)
    ensures Octet2(x | y) == Octet2(x) | Octet2(y)
    ensures Octet3(x | y) == Octet3(x) | Octet3(y)
    ensures Octet4(x | y) == Octet4(x) | Octet4(y)
    ensures Octet5(x | y) == Octet5(x) | Octet5(y)
    ensures Octet6(x | y) == Octet6(x) | Octet6(y)
    ensures Octet7(x | y) == Octet7(x) | Octet7(y)
  {
  }

  lemma OrOctets(x: bv64, y: bv64)
    ensures Octet0(Or64(x, y)) == Or8(Octet0(x), Octet0(y))
    ensures Octet1(Or64(x, y)) == Or8(Octet1(x), Octet1(y))
    ensures Octet2(Or64(x, y)) == Or8(Octet2(x), Octet2(y))
    ensures Octet3(Or64(x, y)) == Or8(Octet3(x), Octet3(y))
    ensures Octet4(Or64(x, y)) == Or8(Octet4(x), Octet4(y))
    ensures Octet5(Or64(x, y)) == Or8(Octet5(x), Octet5(y))
    ensures Octet6(Or64(x, y)) == Or8(Octet6(x), Octet6(y))
    ensures Octet7(Or64(x, y)) == Or8(Octet7(x), Octet7(y))
  {
    hide Octet0, Octet1, Octet2, Octet3, Octet4, Octet5, Octet6, Octet7;
    OrBits(x, y);
  }

  lemma XorBits(x: bv64, y: bv64)
    ensures Octet0(x ^ y) == Octet0(x) ^ Octet0(y)
    ensures Octet1(x ^ y) == Octet1(x) ^ Octet1(y)
    ensures Octet2(x ^ y) == Octet2(x) ^ Octet2(y)
    ensures Octet3(x ^ y) == Octet3(x) ^ Octet3(y)
    ensures Octet4(x ^ y) == Octet4(x) ^ Octet4(y)
    ensures Octet5(x ^ y) == Octet5(x) ^ Octet5(y)
    ensures Octet6(x ^ y) == Octet6(x) ^ Octet6(y)
    ensures Octet7(x ^ y) == Octet7(x) ^ Octet7(y)
  {
  }

  lemma XorOctets(x: bv64, y: bv64)
    ensures Octet0(Xor64(x, y)) == Xor8(Octet0(x), Octet0(y))
    ensures Octet1(Xor64(x, y)) == Xor8(Octet1(x), Octet1(y))
    ensures Octet2(Xor64(x, y)) == Xor8(Octet2(x), Octet2(y))
    ensures Octet3(Xor64(x, y)) == Xor8(Octet3(x), Octet3(y))
    ensures Octet4(Xor64(x, y)) == Xor8(Octet4(x), Octet4(y))
    ensures Octet5(Xor64(x, y)) == Xor8(Octet5(x), Octet5(y))
    ensures Octet6(Xor64(x, y)) == Xor8(Octet6(x), Octet6(y))
    ensures Octet7(Xor64(x, y)) == Xor8(Octet7(x), Octet7(y))
  {
    hide Octet0, Octet1, Octet2, Octet3, Octet4, Octet5, Octet6, Octet7;
    XorBits(x, y);
  }

  lemma NotOctets(x: bv64)
    ensures Octet0(Inverted(x)) == Inverse(Octet0(x))
    ensures Octet1(Inverted(x)) == Inverse(Octet1(x))
    ensures Octet2(Inverted(x)) == Inverse(Octet2(x))
    ensures Octet3(Inverted(x)) == Inverse(Octet3(x))
    ensures Octet4(Inverted(x)) == Inverse(Octet4(x))
    ensures Octet5(Inverted(x)) == Inverse(Octet5(x))
    ensures Octet6(Inverted(x)) == Inverse(Octet6(x))
    ensures Octet7(Inverted(x)) == Inverse(Octet7(x))
  {
  }

  lemma AppliedOctets(op: Operation, x: bv64, y: bv64)
    ensures Octet0(ApplyWord(op, x, y)) == Apply(op, Octet0(x), Octet0(y))
    ensures Octet1(ApplyWord(op, x, y)) == Apply(op, Octet1(x), Octet1(y))
    ensures Octet2(ApplyWord(op, x, y)) == Apply(op, Octet2(x), Octet2(y))
    ensures Octet3(ApplyWord(op, x, y)) == Apply(op, Octet3(x), Octet3(y))
    ensures Octet4(ApplyWord(op, x, y)) == Apply(op, Octet4(x), Octet4(y))
    ensures Octet5(ApplyWord(op, x, y)) == Apply(op, Octet5(x), Octet5(y))
    ensures Octet6(ApplyWord(op, x, y)) == Apply(op, Octet6(x), Octet6(y))
    ensures Octet7(ApplyWord(op, x, y)) == Apply(op, Octet7(x), Octet7(y))
  {
    hide Octet0, Octet1, Octet2, Octet3, Octet4, Octet5, Octet6, Octet7;
    hide And8, Or8, Xor8, And64, Or64, Xor64;
    match op {
      case And => AndOctets(x, y);
      case Or => OrOctets(x, y);
      case Xor => XorOctets(x, y);
      case Not =>
    }
  }

  /** A word operation is the byte operation on each of its bytes. */
  lemma AppliedBytes(op: Operation, x: bv64, y: bv64, k: nat)
    requires k < 8
    ensures ByteOf(ApplyWord(op, x, y), k) == Apply(op, ByteOf(x, k), ByteOf(y, k))
  {
    hide Octet0, Octet1, Octet2, Octet3, Octet4, Octet5, Octet6, Octet7, Apply, ApplyWord;
    AppliedOctets(op, x, y);
  }

  lemma InvertedBytes(x: bv64, k: nat)
    requires k < 8
    ensures ByteOf(Inverted(x), k) == Inverse(ByteOf(x, k))
  {
    hide Octet0, Octet1, Octet2, Octet3, Octet4, Octet5, Octet6, Octet7, Inverted, Inverse;
    NotOctets(x);
  }

  method StoreWord(res: array<bv8>, i: nat, x: bv64)
    requires i + 8 <= res.Length
    modifies res
    ensures forall k | 0 <= k < res.Length :: res[k] == if i <= k < i + 8 then ByteOf(x, k - i) else old(res[k])
  {
    hide ByteOf;
    for m := 0 to 8
      invariant forall k | 0 <= k < res.Length :: res[k] == if i <= k < i + m then ByteOf(x, k - i) else old(res[k])
    {
      res[i + m] := ByteOf(x, m);
    }
  }

  /** lres[w] op= lp[i][w]. */
  method CombineWord(op: Operation, res: array<bv8>, i: nat, src: seq<bv8>)
    requires i + 8 <= res.Length && i + 8 <= |src|
    modifies res
    ensures forall k | 0 <= k < res.Length ::
            res[k] == if i <= k < i + 8 then Apply(op, old(res[k]), src[k]) else old(res[k])
  {
    hide ByteOf, Load, Apply, ApplyWord;
    var x, y := Load(res[..], i), Load(src, i);
    forall k | i <= k < i + 8 ensures ByteOf(ApplyWord(op, x, y), k - i) == Apply(op, res[k], src[k]) {
      AppliedBytes(op, x, y, k - i);
      LoadedByte(res[..], i, k - i);
      LoadedByte(src, i, k - i);
    }
    StoreWord(res, i, ApplyWord(op, x, y));
  }

  /** lres[w] = ~lres[w]. */
  method InvertWord(res: array<bv8>, i: nat)
    requires i + 8 <= res.Length
    modifies res
    ensures forall k | 0 <= k < res.Length :: res[k] == if i <= k < i + 8 then Inverse(old(res[k])) else old(res[k])
  {
    hide ByteOf, Load, Inverse, Inverted;
    var x := Load(res[..], i);
    forall k | i <= k < i + 8 ensures ByteOf(Inverted(x), k - i) == Inverse(res[k]) {
      InvertedBytes(x, k - i);
      LoadedByte(res[..], i, k - i);
    }
    StoreWord(res, i, Inverted(x));
  }

  /** Four words at once, combined with one more source. */
  method CombineBlock(op: Operation, res: array<bv8>, i: nat, src: seq<bv8>)
    requires i + 32 <= res.Length && i + 32 <= |src|
    modifies res
    ensures forall k | 0 <= k < res.Length ::
            res[k] == if i <= k < i + 32 then Apply(op, old(res[k]), src[k]) else old(res[k])
  {
    hide Apply;
    CombineWord(op, res, i, src);
    CombineWord(op, res, i + 8, src);
    CombineWord(op, res, i + 16, src);
    CombineWord(op, res, i + 24, src);
  }

  method InvertBlock(res: array<bv8>, i: nat)
    requires i + 32 <= res.Length
    modifies res
    ensures forall k | 0 <= k < res.Length :: res[k] == if i <= k < i + 32 then Inverse(old(res[k])) else old(res[k])
  {
    hide Inverse;
    InvertWord(res, i);
    InvertWord(res, i + 8);
    InvertWord(res, i + 16);
    InvertWord(res, i + 24);
  }

  lemma CombinedNext(op: Operation, srcs: seq<seq<bv8>>, n: nat, k: nat)
    requires 1 <= n < |srcs| && k < |srcs[n]|
    ensures Combined(op, srcs, n + 1, k) == Apply(op, Combined(op, srcs, n, k), srcs[n][k])
  {
    hide Apply;
  }

  lemma CombinedFirst(op: Operation, srcs: seq<seq<bv8>>, k: nat)
    requires srcs != []
    ensures Combined(op, srcs, 1, k) == if op.Not? then Inverse(Pad(srcs[0], k)) else Pad(srcs[0], k)
  {
  }

  /** One block of 32 bytes of the fast path, with all sources. */
  method FastBlock(op: Operation, srcs: seq<seq<bv8>>, res: array<bv8>, j: nat)
    requires srcs != [] && (op.Not? ==> |srcs| == 1) && j + 32 <= res.Length
    requires forall i | 0 <= i < |srcs| :: j + 32 <= |srcs[i]|
    requires forall k | j <= k < j + 32 :: res[k] == srcs[0][k]
    modifies res
    ensures forall k | j <= k < j + 32 :: res[k] == Combined(op, srcs, |srcs|, k)
    ensures forall k | 0 <= k < res.Length && !(j <= k < j + 32) :: res[k] == old(res[k])
  {
    hide Combined, Apply, Inverse;
    forall k | j <= k < j + 32 ensures Combined(op, srcs, 1, k) == if op.Not? then Inverse(srcs[0][k]) else srcs[0][k] {
      CombinedFirst(op, srcs, k);
    }
    if op.Not? {
      InvertBlock(res, j);
    } else {
      for i := 1 to |srcs|
        invariant forall k | j <= k < j + 32 :: res[k] == Combined(op, srcs, i, k)
        invariant forall k | 0 <= k < res.Length && !(j <= k < j + 32) :: res[k] == old(res[k])
      {
        forall k | j <= k < j + 32
          ensures Combined(op, srcs, i + 1, k) == Apply(op, Combined(op, srcs, i, k), srcs[i][k])
        {
          CombinedNext(op, srcs, i, k);
        }
        CombineBlock(op, res, j, srcs[i]);
      }
    }
  }

  /** The fast path: whole blocks as far as all sources reach; returns the next byte to do. */
  method FastPath(op: Operation, srcs: seq<seq<bv8>>, res: array<bv8>, minlen: nat) returns (j: nat)
    requires srcs != [] && (op.Not? ==> |srcs| == 1) && minlen <= res.Length
    requires forall i | 0 <= i < |srcs| :: minlen <= |srcs[i]|
    modifies res
    ensures j <= minlen && forall k | 0 <= k < j :: res[k] == Combined(op, srcs, |srcs|, k)
  {
    hide Combined, Apply, Inverse;
    j := 0;
    if minlen >= 32 && |srcs| <= 16 {
      for k := 0 to minlen
        invariant forall m | 0 <= m < k :: res[m] == srcs[0][m]
      {
        res[k] := srcs[0][k];
      }
      while minlen - j >= 32
        invariant j <= minlen
        invariant forall k | 0 <= k < j :: res[k] == Combined(op, srcs, |srcs|, k)
        invariant forall k | j <= k < minlen :: res[k] == srcs[0][k]
      {
        FastBlock(op, srcs, res, j);
        j := j + 32;
      }
    }
  }

  /** One byte of the plain path. */
  method SlowByte(op: Operation, srcs: seq<seq<bv8>>, j: nat) returns (output: bv8)
    requires srcs != []
    ensures output == Combined(op, srcs, |srcs|, j)
  {
    hide Apply, Inverse;
    output := if |srcs[0]| <= j then 0 else srcs[0][j];
    if op.Not? { output := Inverse(output); }
    for i := 1 to |srcs|
      invariant output == Combined(op, srcs, i, j)
    {
      var byte := if |srcs[i]| <= j then 0 else srcs[i][j];
      output := Apply(op, output, byte);
    }
  }

  /** The loop over the keys: a missing key is an empty source. */
  method Sources(keys: seq<Source>) returns (srcs: seq<seq<bv8>>, maxlen: nat, minlen: nat)
    requires keys != []
    ensures srcs == SourcesOf(keys) && maxlen == MaxLen(srcs) && minlen == MinLen(srcs)
  {
    srcs, maxlen, minlen := [], 0, 0;
    for j := 0 to |keys|
      invariant |srcs| == j && forall i | 0 <= i < j :: srcs[i] == Bytes(keys[i])
      invariant maxlen == MaxLen(srcs) && (j > 0 ==> minlen == MinLen(srcs)) && (j == 0 ==> minlen == 0)
    {
      var src := Bytes(keys[j]);
      assert (srcs + [src])[..j] == srcs;
      srcs := srcs + [src];
      if keys[j].Missing? {
        minlen := 0;
      } else {
        if |src| > maxlen { maxlen := |src|; }
        if j == 0 || |src| < minlen { minlen := |src|; }
      }
    }
  }

  /** The compute part of bitopCommand. */
  method Bitop(op: Operation, keys: seq<Source>) returns (res: array<bv8>)
    requires keys != [] && (op.Not? ==> |keys| == 1)
    ensures res.Length == MaxLen(SourcesOf(keys))
    ensures forall j | 0 <= j < res.Length :: res[j] == Combined(op, SourcesOf(keys), |keys|, j)
  {
    hide Combined, Apply, Inverse, MaxLen, MinLen;
    var srcs, maxlen, minlen := Sources(keys);
    forall i | 0 <= i < |srcs| ensures minlen <= |srcs[i]| <= maxlen { Lengths(srcs, i); }
    assert minlen <= |srcs[0]| <= maxlen;
    res := new bv8[maxlen];
    if maxlen > 0 {
      var j := FastPath(op, srcs, res, minlen);
      while j < maxlen
        invariant j <= maxlen && forall k | 0 <= k < j :: res[k] == Combined(op, srcs, |srcs|, k)
      {
        res[j] := SlowByte(op, srcs, j);
        j := j + 1;
      }
    }
  }
}
