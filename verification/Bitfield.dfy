/** BITFIELD: unsigned integers of 1 to 63 bits and signed ones of 1 to 64 bits anywhere in a string, and what
    SET and INCRBY store under each overflow policy.  Machine words are numbers with their conversions written out. */
module Bitfield {
  import opened Common
  import opened Resp
  import opened Bits

  const TWO63: int := 0x8000_0000_0000_0000
  const TWO64: int := 0x1_0000_0000_0000_0000

  type Int64 = x: int | -0x8000_0000_0000_0000 <= x < 0x8000_0000_0000_0000

  function ToUint64(x: int): nat { x % TWO64 }

  function ToInt64(x: int): Int64 { (x + TWO63) % TWO64 - TWO63 }

  /** The widths BITFIELD accepts. */
  predicate Width(bits: nat, sign: bool) { 1 <= bits <= if sign then 64 else 63 }

  lemma Powers()
    ensures Pow2(63) == TWO63 && Pow2(64) == TWO64
  {
    assert Pow2(4) == 16;
    Pow2Add(4, 4);
    Pow2Add(8, 8);
    Pow2Add(16, 16);
    Pow2Add(32, 32);
    assert Pow2(64) == 2 * Pow2(63);
  }

  lemma {:induction false} Pow2Grows(a: nat, b: nat)
    requires a <= b
    ensures Pow2(a) <= Pow2(b)
    decreases b
  {
    if a < b { Pow2Grows(a, b - 1); }
  }

  /** The powers in use fit a word, and below width 64 a signed one. */
  lemma WidthPowers(bits: nat)
    requires Width(bits, true)
    ensures 2 * Pow2(bits - 1) == Pow2(bits) <= TWO64
    ensures bits == 64 || Pow2(bits) <= TWO63
  {
    hide Pow2;
    Doubles(bits);
    Powers();
    Pow2Grows(bits, 64);
    if bits < 64 { Pow2Grows(bits, 63); }
  }

  lemma Doubles(bits: nat)
    requires bits > 0
    ensures Pow2(bits) == 2 * Pow2(bits - 1)
  {
  }

  // ---------- writing and reading fields ----------

  lemma ByteRange(b: Byte, k: nat, v: nat)
    requires k < 8 && v < 2
    ensures SetDigit(b, k, v) < 256
  {
    assert Pow2(4) == 16;
    Pow2Add(4, 4);
    SetBound(b, k, v, 8);
  }

  function SetBit(p: Bytes, i: nat, v: nat): (r: Bytes)
    requires i < 8 * |p| && v < 2
    ensures |r| == |p|
  {
    ByteRange(p[i / 8], 7 - i % 8, v);
    p[i / 8 := SetDigit(p[i / 8], 7 - i % 8, v)]
  }

  /** The first j of the given number of bits written from off on, most significant first. */
  function SetField(p: Bytes, off: nat, bits: nat, value: nat, j: nat): (r: Bytes)
    requires j <= bits && off + bits <= 8 * |p|
    ensures |r| == |p|
  {
    if j == 0 then p
    else SetBit(SetField(p, off, bits, value, j - 1), off + j - 1, Digit(value, bits - j))
  }

  lemma SetBitMeans(p: Bytes, i: nat, v: nat, m: nat)
    requires i < 8 * |p| && m < 8 * |p| && v < 2
    ensures BitAt(SetBit(p, i, v), m) == if m == i then v else BitAt(p, m)
  {
    hide SetDigit, Digit;
    if m / 8 == i / 8 { DigitSet(p[i / 8], 7 - i % 8, v, 7 - m % 8); }
  }

  /** Exactly the bits of the field change, and they become the digits of the value. */
  lemma {:induction false} SetFieldMeans(p: Bytes, off: nat, bits: nat, value: nat, j: nat, m: nat)
    requires j <= bits && off + bits <= 8 * |p| && m < 8 * |p|
    ensures BitAt(SetField(p, off, bits, value, j), m)
            == if off <= m < off + j then Digit(value, bits - 1 - (m - off)) else BitAt(p, m)
  {
    hide BitAt, SetBit, Digit;
    if j > 0 {
      SetFieldMeans(p, off, bits, value, j - 1, m);
      SetBitMeans(SetField(p, off, bits, value, j - 1), off + j - 1, Digit(value, bits - j), m);
    }
  }

  lemma {:induction false} ReadDigits(p: Bytes, off: nat, bits: nat, value: nat, n: nat)
    requires n <= bits && off + bits <= 8 * |p|
    requires forall m | off <= m < off + bits :: BitAt(p, m) == Digit(value, bits - 1 - (m - off))
    ensures Unsigned(p, off, n) == Low(Shr(value, bits - n), n)
    decreases n
  {
    hide BitAt, Shr;
    if n > 0 {
      ReadDigits(p, off, bits, value, n - 1);
      ShrNext(value, bits - n);
      assert BitAt(p, off + n - 1) == Digit(value, bits - n);
    }
  }

  /** Get after set returns the value modulo 2 to the width. */
  lemma GetAfterSet(p: Bytes, off: nat, bits: nat, value: nat)
    requires off + bits <= 8 * |p|
    ensures Unsigned(SetField(p, off, bits, value, bits), off, bits) == value % Pow2(bits)
  {
    hide SetField, BitAt, Digit, Low;
    var r := SetField(p, off, bits, value, bits);
    forall m | off <= m < off + bits ensures BitAt(r, m) == Digit(value, bits - 1 - (m - off)) {
      SetFieldMeans(p, off, bits, value, bits, m);
    }
    ReadDigits(r, off, bits, value, bits);
    LowIsMod(value, bits);
  }

  /** A field that does not overlap reads as before. */
  lemma OtherFieldKept(p: Bytes, off: nat, bits: nat, value: nat, off2: nat, bits2: nat)
    requires off + bits <= 8 * |p| && off2 + bits2 <= 8 * |p|
    requires off2 + bits2 <= off || off + bits <= off2
    ensures Unsigned(SetField(p, off, bits, value, bits), off2, bits2) == Unsigned(p, off2, bits2)
  {
    hide SetField, BitAt, Digit;
    var r := SetField(p, off, bits, value, bits);
    forall m | off2 <= m < off2 + bits2 ensures BitAt(r, m) == BitAt(p, m) {
      SetFieldMeans(p, off, bits, value, bits, m);
    }
    UnsignedSame(r, p, off2, bits2);
  }

  /** setUnsignedBitfield. */
  method SetUnsignedBitfield(p: array<Byte>, off: nat, bits: nat, value: nat)
    requires off + bits <= 8 * p.Length
    modifies p
    ensures p[..] == SetField(old(p[..]), off, bits, value, bits)
  {
    hide Digit, SetDigit;
    var offset := off;
    for j := 0 to bits
      invariant offset == off + j
      invariant p[..] == SetField(old(p[..]), off, bits, value, j)
    {
      var bitval := Digit(value, bits - 1 - j);
      var byte := offset / 8;
      var bit := 7 - offset % 8;
      var byteval := p[byte];
      ByteRange(byteval, bit, bitval);
      ghost var before := p[..];
      p[byte] := SetDigit(byteval, bit, bitval);
      assert p[..] == SetBit(before, offset, bitval);
      offset := offset + 1;
    }
  }

  /** getUnsignedBitfield. */
  method GetUnsignedBitfield(p: array<Byte>, off: nat, bits: nat) returns (value: nat)
    requires off + bits <= 8 * p.Length
    ensures value == Unsigned(p[..], off, bits)
  {
    value := 0;
    var offset := off;
    for j := 0 to bits
      invariant offset == off + j && value == Unsigned(p[..], off, j)
    {
      var byteval := p[offset / 8];
      var bitval := Digit(byteval, 7 - offset % 8);
      value := 2 * value + bitval;
      offset := offset + 1;
    }
  }

  // ---------- signed fields ----------

  /** The value of the low bits of x in two's complement. */
  function SignExtend(u: nat, bits: nat): int
    requires bits > 0
  {
    if u >= Pow2(bits - 1) then u - Pow2(bits) else u
  }

  /** x reduced to the range of the field. */
  function Wrapped(x: int, bits: nat, sign: bool): int
    requires bits > 0
  {
    if sign then SignExtend(x % Pow2(bits), bits) else x % Pow2(bits)
  }

  function Field(p: Bytes, off: nat, bits: nat, sign: bool): int
    requires off + bits <= 8 * |p| && bits > 0
  {
    if sign then SignExtend(Unsigned(p, off, bits), bits) else Unsigned(p, off, bits)
  }

  lemma {:induction false} TopDigit(u: nat, bits: nat)
    requires bits > 0 && u < Pow2(bits)
    ensures Digit(u, bits - 1) == 1 <==> u >= Pow2(bits - 1)
    decreases bits
  {
    if bits > 1 { TopDigit(u / 2, bits - 1); }
  }

  /** getSignedBitfield: the top bit is copied into all higher bits, of which there are none at width 64. */
  function SignedOf(u: nat, bits: nat): int {
    if bits > 0 && Digit(u, bits - 1) == 1 then ToInt64(u + (TWO64 - Pow2(bits))) else ToInt64(u)
  }

  lemma SignedOfMeans(u: nat, bits: nat)
    requires Width(bits, true) && u < Pow2(bits)
    ensures SignedOf(u, bits) == SignExtend(u, bits)
  {
    hide Digit, Pow2;
    WidthPowers(bits);
    TopDigit(u, bits);
  }

  /** Setting and getting a field, signed or not, gives the value reduced to the field's range; the
      cast of a negative number to an unsigned word is lost in the reduction. */
  lemma FieldRoundTrip(p: Bytes, off: nat, bits: nat, sign: bool, v: int)
    requires Width(bits, sign) && off + bits <= 8 * |p|
    ensures Field(SetField(p, off, bits, ToUint64(v), bits), off, bits, sign) == Wrapped(v, bits, sign)
  {
    hide SetField, Unsigned, Pow2;
    GetAfterSet(p, off, bits, ToUint64(v));
    Powers();
    ModMod(v, bits, 64);
  }

  // ---------- overflow ----------

  datatype Overflow = Wrap | Sat | Fail

  function Max(bits: nat, sign: bool): int
    requires bits > 0
  {
    if sign then Pow2(bits - 1) - 1 else Pow2(bits) - 1
  }

  function Min(bits: nat, sign: bool): int
    requires bits > 0
  {
    if sign then 0 - Pow2(bits - 1) else 0
  }

  predicate Fits(x: int, bits: nat, sign: bool)
    requires bits > 0
  {
    Min(bits, sign) <= x <= Max(bits, sign)
  }

  function Clamped(x: int, bits: nat, sign: bool): int
    requires bits > 0
  {
    if x < Min(bits, sign) then Min(bits, sign) else if x > Max(bits, sign) then Max(bits, sign) else x
  }

  /** checkUnsignedBitfieldOverflow: the returned code, and the limit where it is written. */
  function CheckUnsigned(value: nat, incr: Int64, bits: nat, ow: Overflow): (int, Option<int>)
    requires Width(bits, false)
  {
    var max := Pow2(bits) - 1;
    var maxincr := ToInt64(max - value);
    var minincr := ToInt64(0 - value);
    var wrapped := ToUint64(value + incr) % Pow2(bits);
    if value > max || (incr > 0 && incr > maxincr) then
      match ow
      case Wrap => (1, Some(wrapped))
      case Sat => (1, Some(max))
      case Fail => (1, None)
    else if incr < 0 && incr < minincr then
      match ow
      case Wrap => (1, Some(wrapped))
      case Sat => (-1, Some(0))
      case Fail => (-1, None)
    else (0, None)
  }

  /** checkSignedBitfieldOverflow. */
  function CheckSigned(value: Int64, incr: Int64, bits: nat, ow: Overflow): (int, Option<int>)
    requires Width(bits, true)
  {
    var max := Pow2(bits - 1) - 1;
    var min := 0 - max - 1;
    var maxincr := ToInt64(max - value);
    var minincr := ToInt64(min - value);
    var c := ToUint64(value + incr);
    var wrapped := SignedOf(c % Pow2(bits), bits);
    if value > max || (bits != 64 && incr > maxincr) || (value >= 0 && incr > 0 && incr > maxincr) then
      match ow
      case Wrap => (1, Some(wrapped))
      case Sat => (1, Some(max))
      case Fail => (1, None)
    else if value < min || (bits != 64 && incr < minincr) || (value < 0 && incr < 0 && incr < minincr) then
      match ow
      case Wrap => (1, Some(wrapped))
      case Sat => (-1, Some(min))
      case Fail => (-1, None)
    else (0, None)
  }

  function Check(value: int, incr: Int64, bits: nat, sign: bool, ow: Overflow): (int, Option<int>)
    requires Width(bits, sign)
  {
    if sign then CheckSigned(ToInt64(value), incr, bits, ow) else CheckUnsigned(ToUint64(value), incr, bits, ow)
  }

  lemma WrapUnsigned(x: int, bits: nat)
    requires Width(bits, true)
    ensures ToUint64(x) % Pow2(bits) == Wrapped(x, bits, false)
  {
    hide Pow2;
    Powers();
    ModMod(x, bits, 64);
  }

  lemma WrapSigned(x: int, bits: nat)
    requires Width(bits, true)
    ensures SignedOf(ToUint64(x) % Pow2(bits), bits) == Wrapped(x, bits, true)
  {
    hide Pow2, SignedOf;
    WrapUnsigned(x, bits);
    SignedOfMeans(ToUint64(x) % Pow2(bits), bits);
  }

  /** The value to store and whether the check reports an overflow, as the policy means them. */
  predicate Exact(r: (int, Option<int>), x: int, bits: nat, sign: bool, ow: Overflow)
    requires bits > 0
  {
    && (r.0 == 0 <==> Fits(x, bits, sign))
    && (r.0 != 0 && ow.Wrap? ==> r.1 == Some(Wrapped(x, bits, sign)))
    && (r.0 != 0 && ow.Sat? ==> r.1 == Some(Clamped(x, bits, sign)))
  }

  lemma Word(x: int)
    ensures -TWO63 <= x < TWO63 ==> ToInt64(x) == x
    ensures 0 <= x < TWO64 ==> ToUint64(x) == x
  {
  }

  lemma CheckUnsignedIncrement(value: int, incr: Int64, bits: nat, ow: Overflow)
    requires Width(bits, false) && Fits(value, bits, false)
    ensures Exact(CheckUnsigned(value, incr, bits, ow), value + incr, bits, false, ow)
  {
    hide Pow2, Wrapped, ToInt64, ToUint64;
    WidthPowers(bits);
    WrapUnsigned(value + incr, bits);
    Word(Pow2(bits) - 1 - value);
    Word(0 - value);
  }

  lemma CheckSignedIncrement(value: Int64, incr: Int64, bits: nat, ow: Overflow)
    requires Width(bits, true) && Fits(value, bits, true)
    ensures Exact(CheckSigned(value, incr, bits, ow), value + incr, bits, true, ow)
  {
    hide Pow2, Wrapped, SignedOf, ToInt64, ToUint64;
    WidthPowers(bits);
    Powers();
    WrapSigned(value + incr, bits);
    FarWord(Pow2(bits - 1) - 1 - value);
    FarWord(0 - (Pow2(bits - 1) - 1) - 1 - value);
  }

  /** For an old value in range and any increment, the check is exact. */
  lemma CheckIncrement(value: int, incr: Int64, bits: nat, sign: bool, ow: Overflow)
    requires Width(bits, sign) && Fits(value, bits, sign)
    ensures Exact(Check(value, incr, bits, sign, ow), value + incr, bits, sign, ow)
  {
    hide Pow2, Wrapped, CheckSigned, CheckUnsigned, Exact, ToInt64, ToUint64;
    WidthPowers(bits);
    Word(value);
    if sign { CheckSignedIncrement(value, incr, bits, ow); } else { CheckUnsignedIncrement(value, incr, bits, ow); }
  }

  /** For SET the value itself is checked with an increment of 0.  This is exact except under SAT: an
      unsigned field turns every negative value into its maximum, and a signed field those values
      so far below the range that the distance to the maximum overflows a word. */
  lemma CheckSet(v: Int64, bits: nat, sign: bool, ow: Overflow)
    requires Width(bits, sign)
    ensures Exact(Check(v, 0, bits, sign, ow), v, bits, sign, ow)
            <==> ow.Sat? ==> if sign then bits == 64 || Max(bits, true) - v < TWO63 else v >= 0
  {
    hide Pow2, Wrapped, CheckSigned, CheckUnsigned, Exact, ToInt64, ToUint64;
    Word(v);
    if sign { CheckSignedSet(v, bits, ow); } else { CheckUnsignedSet(v, bits, ow); }
  }

  lemma CheckSignedSet(v: Int64, bits: nat, ow: Overflow)
    requires Width(bits, true)
    ensures Exact(CheckSigned(v, 0, bits, ow), v, bits, true, ow) <==> ow.Sat? ==> bits == 64 || Max(bits, true) - v < TWO63
  {
    hide Pow2, Wrapped, SignedOf, ToInt64, ToUint64;
    WidthPowers(bits);
    WrapSigned(v, bits);
    FarWord(Pow2(bits - 1) - 1 - v);
    FarWord(0 - (Pow2(bits - 1) - 1) - 1 - v);
  }

  /** A distance that overflows changes sign. */
  lemma FarWord(d: int)
    requires -TWO64 < d < TWO64
    ensures ToInt64(d) == if d >= TWO63 then d - TWO64 else if d < -TWO63 then d + TWO64 else d
  {
  }

  lemma CheckUnsignedSet(v: Int64, bits: nat, ow: Overflow)
    requires Width(bits, false)
    ensures Exact(CheckUnsigned(ToUint64(v), 0, bits, ow), v, bits, false, ow) <==> ow.Sat? ==> v >= 0
  {
    hide Pow2, Wrapped, ToInt64, ToUint64;
    WidthPowers(bits);
    SetUnsignedCode(v, bits);
  }

  lemma SetUnsignedCode(v: Int64, bits: nat)
    requires Width(bits, false)
    ensures ToUint64(v) == if v >= 0 then v else v + TWO64
    ensures ToUint64(ToUint64(v) + 0) % Pow2(bits) == Wrapped(v, bits, false)
  {
    hide Pow2;
    WrapUnsigned(v, bits);
  }

  // ---------- the command ----------

  datatype Op =
    | Get(off: nat, bits: nat, sign: bool)
    | Set(off: nat, bits: nat, sign: bool, value: Int64, ow: Overflow)
    | IncrBy(off: nat, bits: nat, sign: bool, value: Int64, ow: Overflow)

  /** The write operations lie within the string, which was grown for them. */
  predicate Valid(op: Op, size: nat) { Width(op.bits, op.sign) && (!op.Get? ==> op.off + op.bits <= 8 * size) }

  /** The number the machine adds up or casts before the check is consulted. */
  function NewValue(old_: int, op: Op): int
    requires !op.Get?
  {
    var x := if op.Set? then op.value else old_ + op.value;
    if op.sign then ToInt64(x) else ToUint64(x)
  }

  function Checked(old_: int, op: Op): (int, Option<int>)
    requires !op.Get? && Width(op.bits, op.sign)
  {
    if op.Set? then Check(op.value, 0, op.bits, op.sign, op.ow) else Check(old_, op.value, op.bits, op.sign, op.ow)
  }

  /** Nine bytes from the one the field starts in, padded with zeros. */
  function Window(p: Bytes, byte: nat): (r: Bytes)
    ensures |r| == 9
  {
    seq(9, i requires 0 <= i < 9 => if byte + i < |p| then p[byte + i] else 0)
  }

  /** The execute loop of bitfieldCommand, one operation: the string afterwards and the reply. */
  function Execute(p: Bytes, op: Op): (r: (Bytes, Option<int>))
    requires Valid(op, |p|)
    ensures |r.0| == |p|
  {
    if op.Get? then (p, Some(Field(Window(p, op.off / 8), op.off % 8, op.bits, op.sign)))
    else
      var old_ := Field(p, op.off, op.bits, op.sign);
      var (code, limit) := Checked(old_, op);
      if code != 0 && op.ow.Fail? then (p, None)
      else
        var new_ := if code != 0 && limit.Some? then limit.value else NewValue(old_, op);
        (SetField(p, op.off, op.bits, ToUint64(new_), op.bits), Some(if op.Set? then old_ else new_))
  }

  /** What an operation is meant to leave in the field: nothing new if it fails. */
  function Intended(x: int, bits: nat, sign: bool, ow: Overflow): Option<int>
    requires bits > 0
  {
    if Fits(x, bits, sign) then Some(x)
    else
      match ow
      case Wrap => Some(Wrapped(x, bits, sign))
      case Sat => Some(Clamped(x, bits, sign))
      case Fail => None
  }

  lemma FieldFits(p: Bytes, off: nat, bits: nat, sign: bool)
    requires Width(bits, sign) && off + bits <= 8 * |p|
    ensures Fits(Field(p, off, bits, sign), bits, sign)
  {
    hide Unsigned, Pow2;
    UnsignedBound(p, off, bits);
    WidthPowers(bits);
  }

  /** A number in range is its own reduction. */
  lemma FitsIsWrapped(x: int, bits: nat, sign: bool)
    requires Width(bits, sign) && Fits(x, bits, sign)
    ensures Wrapped(x, bits, sign) == x
  {
    hide Pow2;
    WidthPowers(bits);
    if x < 0 { ModIs(x, Pow2(bits), -1, x + Pow2(bits)); } else { ModIs(x, Pow2(bits), 0, x); }
  }

  lemma IntendedFits(x: int, bits: nat, sign: bool, ow: Overflow)
    requires Width(bits, sign)
    ensures var v := Intended(x, bits, sign, ow); v.Some? ==> Fits(v.value, bits, sign)
  {
    hide Pow2;
    WidthPowers(bits);
  }

  /** Storing v in the field and reading it back, for v in range. */
  lemma StoredExactly(p: Bytes, off: nat, bits: nat, sign: bool, v: int)
    requires Width(bits, sign) && off + bits <= 8 * |p| && Fits(v, bits, sign)
    ensures Field(SetField(p, off, bits, ToUint64(v), bits), off, bits, sign) == v
  {
    hide Pow2, SetField, Field, Wrapped, Fits;
    FieldRoundTrip(p, off, bits, sign, v);
    FitsIsWrapped(v, bits, sign);
  }

  lemma WordFits(x: int, bits: nat, sign: bool)
    requires Width(bits, sign) && Fits(x, bits, sign)
    ensures (if sign then ToInt64(x) else ToUint64(x)) == x
  {
    hide Pow2, ToInt64, ToUint64;
    WidthPowers(bits);
    Word(x);
  }

  /** An exact check makes the operation do what it is meant to. */
  lemma ExactExecutes(p: Bytes, op: Op, x: int)
    requires Valid(op, |p|) && !op.Get?
    requires var old_ := Field(p, op.off, op.bits, op.sign);
             && x == (if op.Set? then op.value else old_ + op.value)
             && Exact(Checked(old_, op), x, op.bits, op.sign, op.ow)
    ensures var old_, (q, reply) := Field(p, op.off, op.bits, op.sign), Execute(p, op);
            var want := Intended(x, op.bits, op.sign, op.ow);
            && (want.None? ==> q == p && reply == None)
            && (want.Some? ==> Field(q, op.off, op.bits, op.sign) == want.value)
            && (want.Some? ==> reply == Some(if op.Set? then old_ else want.value))
  {
    hide Pow2, SetField, Field, Wrapped, Fits, Clamped, Check, ToUint64, ToInt64;
    var want := Intended(x, op.bits, op.sign, op.ow);
    IntendedFits(x, op.bits, op.sign, op.ow);
    if want.Some? {
      if Fits(x, op.bits, op.sign) { WordFits(x, op.bits, op.sign); }
      StoredExactly(p, op.off, op.bits, op.sign, want.value);
    }
  }

  /** INCRBY stores and replies the sum, wrapped, clamped or, under FAIL, not at all. */
  lemma IncrByExact(p: Bytes, op: Op)
    requires Valid(op, |p|) && op.IncrBy?
    ensures var (q, reply) := Execute(p, op);
            var want := Intended(Field(p, op.off, op.bits, op.sign) + op.value, op.bits, op.sign, op.ow);
            && reply == want
            && (if want.None? then q == p else Field(q, op.off, op.bits, op.sign) == want.value)
  {
    hide Pow2, Field, Execute, Exact, Check, Intended, Fits;
    var old_ := Field(p, op.off, op.bits, op.sign);
    FieldFits(p, op.off, op.bits, op.sign);
    CheckIncrement(old_, op.value, op.bits, op.sign, op.ow);
    ExactExecutes(p, op, old_ + op.value);
  }

  /** SET replies the old value and stores the new one under the same policies, outside the two families
      of values that SAT turns into the maximum instead of the minimum. */
  lemma SetExact(p: Bytes, op: Op)
    requires Valid(op, |p|) && op.Set?
    requires op.ow.Sat? ==> if op.sign then op.bits == 64 || Max(op.bits, true) - op.value < TWO63 else op.value >= 0
    ensures var (q, reply) := Execute(p, op);
            var want := Intended(op.value, op.bits, op.sign, op.ow);
            && reply == (if want.None? then None else Some(Field(p, op.off, op.bits, op.sign)))
            && (if want.None? then q == p else Field(q, op.off, op.bits, op.sign) == want.value)
  {
    hide Pow2, Field, Execute, Exact, Check, Intended, Fits, Max;
    CheckSet(op.value, op.bits, op.sign, op.ow);
    ExactExecutes(p, op, op.value);
  }

  /** In those families SET under SAT does store the maximum. */
  lemma SetStoresMaximum(p: Bytes, op: Op)
    requires Valid(op, |p|) && op.Set? && op.ow.Sat?
    requires if op.sign then op.bits < 64 && Max(op.bits, true) - op.value >= TWO63 else op.value < 0
    ensures Field(Execute(p, op).0, op.off, op.bits, op.sign) == Max(op.bits, op.sign)
    ensures op.value < Min(op.bits, op.sign) < Max(op.bits, op.sign)
  {
    hide Pow2, SetField, Field, ToInt64, ToUint64, Wrapped, SignedOf;
    WidthPowers(op.bits);
    Word(op.value);
    if op.sign {
      FarWord(Pow2(op.bits - 1) - 1 - op.value);
    } else {
      SetUnsignedCode(op.value, op.bits);
    }
    StoredExactly(p, op.off, op.bits, op.sign, Max(op.bits, op.sign));
  }

  /** No operation changes a bit outside its field. */
  lemma OnlyTheField(p: Bytes, op: Op, m: nat)
    requires Valid(op, |p|) && m < 8 * |p| && (op.Get? || m < op.off || op.off + op.bits <= m)
    ensures BitAt(Execute(p, op).0, m) == BitAt(p, m)
  {
    hide BitAt, SetField, Field, Check, ToUint64, ToInt64;
    if !op.Get? {
      var old_ := Field(p, op.off, op.bits, op.sign);
      var (code, limit) := Checked(old_, op);
      var new_ := if code != 0 && limit.Some? then limit.value else NewValue(old_, op);
      SetFieldMeans(p, op.off, op.bits, ToUint64(new_), op.bits, m);
    }
  }

  /** GET reads the field of the string extended with zeros without end. */
  lemma GetReadsPadded(p: Bytes, op: Op, zeros: nat)
    requires op.Get? && Width(op.bits, op.sign) && op.off + op.bits <= 8 * (|p| + zeros)
    ensures Execute(p, op).1 == Some(Field(p + seq(zeros, i => 0), op.off, op.bits, op.sign))
  {
    hide Digit;
    var w, all := Window(p, op.off / 8), p + seq(zeros, i => 0);
    WindowReads(p, w, all, op.off, op.bits);
  }

  lemma Indices(off: nat, n: nat)
    ensures (off + n) / 8 == off / 8 + (off % 8 + n) / 8 && (off + n) % 8 == (off % 8 + n) % 8
  {
  }

  lemma WindowBit(p: Bytes, all: Bytes, off: nat, n: nat)
    requires off + n < 8 * |all| && n < 64
    requires forall i | 0 <= i < |all| :: all[i] == if i < |p| then p[i] else 0
    ensures BitAt(Window(p, off / 8), off % 8 + n) == BitAt(all, off + n)
  {
    hide Digit;
    Indices(off, n);
    var k := (off % 8 + n) / 8;
    assert Window(p, off / 8)[k] == all[off / 8 + k];
  }

  lemma {:induction false} WindowReads(p: Bytes, w: Bytes, all: Bytes, off: nat, bits: nat)
    requires w == Window(p, off / 8) && off + bits <= 8 * |all| && bits <= 64
    requires forall i | 0 <= i < |all| :: all[i] == if i < |p| then p[i] else 0
    ensures Unsigned(w, off % 8, bits) == Unsigned(all, off, bits)
    decreases bits
  {
    hide BitAt, Window;
    if bits > 0 {
      WindowReads(p, w, all, off, bits - 1);
      WindowBit(p, all, off, bits - 1);
    }
  }

  /** All operations in order. */
  function ExecuteAll(p: Bytes, ops: seq<Op>): (r: (Bytes, seq<Option<int>>))
    requires forall i | 0 <= i < |ops| :: Valid(ops[i], |p|)
    ensures |r.0| == |p| && |r.1| == |ops|
  {
    if ops == [] then (p, [])
    else
      var (q, replies) := ExecuteAll(p, ops[..|ops| - 1]);
      var (q', reply) := Execute(q, ops[|ops| - 1]);
      (q', replies + [reply])
  }

  /** getSignedBitfield or getUnsignedBitfield. */
  method GetField(p: array<Byte>, off: nat, bits: nat, sign: bool) returns (v: int)
    requires Width(bits, sign) && off + bits <= 8 * p.Length
    ensures v == Field(p[..], off, bits, sign)
  {
    hide Unsigned, SignExtend;
    var u := GetUnsignedBitfield(p, off, bits);
    UnsignedBound(p[..], off, bits);
    SignedOfMeans(u, bits);
    v := if sign then SignedOf(u, bits) else u;
  }

  method ExecuteOp(p: array<Byte>, op: Op) returns (reply: Option<int>)
    requires Valid(op, p.Length)
    modifies p
    ensures (p[..], reply) == Execute(old(p[..]), op)
  {
    hide Field, SetField, Check, ToUint64, ToInt64;
    if op.Get? {
      var byte := op.off / 8;
      var buf := new Byte[9];
      for i := 0 to 9
        invariant p[..] == old(p[..])
        invariant forall k | 0 <= k < i :: buf[k] == if byte + k < p.Length then p[byte + k] else 0
      {
        buf[i] := if byte + i < p.Length then p[byte + i] else 0;
      }
      assert buf[..] == Window(p[..], byte);
      var v := GetField(buf, op.off - byte * 8, op.bits, op.sign);
      return Some(v);
    }
    var oldval := GetField(p, op.off, op.bits, op.sign);
    var newval := NewValue(oldval, op);
    var (overflow, limit) := Checked(oldval, op);
    if overflow != 0 && limit.Some? { newval := limit.value; }
    if overflow != 0 && op.ow.Fail? { return None; }
    SetUnsignedBitfield(p, op.off, op.bits, ToUint64(newval));
    reply := Some(if op.Set? then oldval else newval);
  }

  /** The execute loop. */
  method ExecuteOps(p: array<Byte>, ops: seq<Op>) returns (replies: seq<Option<int>>)
    requires forall i | 0 <= i < |ops| :: Valid(ops[i], p.Length)
    modifies p
    ensures (p[..], replies) == ExecuteAll(old(p[..]), ops)
  {
    hide Execute;
    replies := [];
    for j := 0 to |ops|
      invariant (p[..], replies) == ExecuteAll(old(p[..]), ops[..j])
    {
      assert ops[..j + 1][..j] == ops[..j];
      var reply := ExecuteOp(p, ops[j]);
      replies := replies + [reply];
    }
    assert ops[..|ops|] == ops;
  }
}
