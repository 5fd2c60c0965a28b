/** The byte format of the append-only file: commands as counted arrays of counted strings. */
module Resp {

  type Byte = b: nat | b < 256

  type Bytes = seq<Byte>

  /** A command: its name and arguments. */
  type Argv = seq<Bytes>

  const STAR: Byte := 42
  const DOLLAR: Byte := 36
  const CR: Byte := 13
  const LF: Byte := 10
  const CRLF: Bytes := [13, 10]

  // ---------- decimal numbers ----------

  predicate IsDigit(b: Byte) { 48 <= b <= 57 }

  /** ll2string of a non-negative number. */
  function Digits(n: nat): (s: Bytes)
    ensures |s| >= 1 && forall i | 0 <= i < |s| :: IsDigit(s[i])
  {
    if n < 10 then [48 + n] else Digits(n / 10) + [48 + n % 10]
  }

  /** atoi and strtol on the text of a count: the value of the leading digits. */
  function Value(s: Bytes, acc: nat): nat {
    if s == [] || !IsDigit(s[0]) then acc else Value(s[1..], acc * 10 + (s[0] - 48))
  }

  lemma {:induction false} ValueSplits(a: Bytes, b: Bytes, acc: nat)
    requires forall i | 0 <= i < |a| :: IsDigit(a[i])
    ensures Value(a + b, acc) == Value(b, Value(a, acc))
  {
    if a == [] {
      assert a + b == b;
    } else {
      assert (a + b)[1..] == a[1..] + b;
      ValueSplits(a[1..], b, acc * 10 + (a[0] - 48));
    }
  }

  lemma {:induction false} ValueOfDigits(n: nat)
    ensures Value(Digits(n), 0) == n
  {
    if n < 10 {
      assert Digits(n)[1..] == [];
    } else {
      ValueOfDigits(n / 10);
      ValueSplits(Digits(n / 10), [48 + n % 10], 0);
      assert [48 + n % 10][1..] == [];
    }
  }

  /** Reading a printed count gives it back, whatever non-digit follows. */
  lemma ValueReadsDigits(n: nat, rest: Bytes)
    requires rest == [] || !IsDigit(rest[0])
    ensures Value(Digits(n) + rest, 0) == n
  {
    ValueSplits(Digits(n), rest, 0);
    ValueOfDigits(n);
  }

  /** Cut inside the digits of a positive count, what is left is still positive. */
  lemma {:induction false} ValueOfCutDigits(n: nat, k: nat)
    requires 1 <= n && 1 <= k <= |Digits(n)|
    ensures Value(Digits(n)[..k], 0) >= 1
  {
    if k == |Digits(n)| {
      assert Digits(n)[..k] == Digits(n);
      ValueOfDigits(n);
    } else {
      assert n >= 10 && Digits(n)[..k] == Digits(n / 10)[..k];
      ValueOfCutDigits(n / 10, k);
    }
  }

  function Pow10(n: nat): nat { if n == 0 then 1 else 10 * Pow10(n - 1) }

  lemma {:induction false} DigitsLength(n: nat, k: nat)
    requires 1 <= k && n < Pow10(k)
    ensures |Digits(n)| <= k
  {
    if n >= 10 { DigitsLength(n / 10, k - 1); }
  }

  // ---------- commands ----------

  function EncodeCount(prefix: Byte, n: nat): Bytes { [prefix] + Digits(n) + CRLF }

  function EncodeArg(arg: Bytes): Bytes { EncodeCount(DOLLAR, |arg|) + arg + CRLF }

  function EncodeArgs(args: Argv): Bytes {
    if args == [] then [] else EncodeArg(args[0]) + EncodeArgs(args[1..])
  }

  function EncodeCommand(argv: Argv): Bytes { EncodeCount(STAR, |argv|) + EncodeArgs(argv) }

  function EncodeLog(cmds: seq<Argv>): Bytes {
    if cmds == [] then [] else EncodeCommand(cmds[0]) + EncodeLog(cmds[1..])
  }

  lemma {:induction false} EncodeArgsAppend(a: Argv, b: Argv)
    ensures EncodeArgs(a + b) == EncodeArgs(a) + EncodeArgs(b)
  {
    if a == [] {
      assert a + b == b;
    } else {
      assert (a + b)[1..] == a[1..] + b;
      EncodeArgsAppend(a[1..], b);
    }
  }

  lemma {:induction false} EncodeLogAppend(a: seq<Argv>, b: seq<Argv>)
    ensures EncodeLog(a + b) == EncodeLog(a) + EncodeLog(b)
  {
    if a == [] {
      assert a + b == b;
    } else {
      assert (a + b)[1..] == a[1..] + b;
      EncodeLogAppend(a[1..], b);
    }
  }

  /** Within the C types of the source: argc is an int, a length a long. */
  predicate Encodable(argv: Argv) {
    1 <= |argv| < 0x8000_0000 && forall i | 0 <= i < |argv| :: |argv[i]| < 0x8000_0000_0000_0000
  }

  lemma EncodeArgsNext(argv: Argv, j: nat)
    requires j < |argv|
    ensures EncodeArgs(argv[..j + 1]) == EncodeArgs(argv[..j]) + EncodeArg(argv[j])
  {
    assert argv[..j + 1] == argv[..j] + [argv[j]];
    EncodeArgsAppend(argv[..j], [argv[j]]);
    assert EncodeArgs([argv[j]]) == EncodeArg(argv[j]);
  }

  /** catAppendOnlyGenericCommand: append one command to a buffer, argument by argument. */
  method CatGenericCommand(dst: Bytes, argv: Argv) returns (out: Bytes)
    ensures out == dst + EncodeCommand(argv)
  {
    hide EncodeArgs, EncodeCount;
    ghost var head := dst + EncodeCount(STAR, |argv|);
    out := dst + EncodeCount(STAR, |argv|);
    EmptyArgs();
    for j := 0 to |argv|
      invariant out == head + EncodeArgs(argv[..j])
    {
      EncodeArgsNext(argv, j);
      ghost var before := out;
      out := out + EncodeCount(DOLLAR, |argv[j]|);
      out := out + argv[j];
      out := out + CRLF;
      assert out == before + EncodeArg(argv[j]);
    }
    assert argv[..|argv|] == argv;
  }

  lemma EmptyArgs()
    ensures EncodeArgs([]) == []
  {
  }
}
