/** Reading an append-only file back: loadAppendOnlyFile on any file, and what it does on a log
    cut off at any byte. */
module AofLoader {
  import opened Common
  import opened Resp
  import opened Dataset

  // ---------- reading one command ----------

  /** Eof: the file ended inside the item.  Bad: a format error. */
  datatype Read<+T> = Got(value: T, rest: Bytes) | Eof | Bad

  const LINE := 127   // fgets with a buffer of 128

  function GetsUpTo(s: Bytes, n: nat): (line: Bytes)
    ensures |line| <= |s| && line == s[..|line|]
    ensures s != [] && n > 0 ==> line != []
  {
    if s == [] || n == 0 then []
    else if s[0] == LF then [LF]
    else [s[0]] + GetsUpTo(s[1..], n - 1)
  }

  /** fgets: up to and including the next newline, at most LINE bytes. */
  function Gets(s: Bytes): (line: Bytes)
    ensures |line| <= |s| && line == s[..|line|]
    ensures s != [] ==> line != []
  {
    GetsUpTo(s, LINE)
  }

  function ReadArg(s: Bytes): Read<Bytes> {
    if s == [] then Eof
    else
      var line := Gets(s);
      if line[0] != DOLLAR then Bad
      else
        var len := Value(line[1..], 0);
        var body := s[|line|..];
        if |body| < len + 2 then Eof else Got(body[..len], body[len + 2..])
  }

  function ReadArgs(s: Bytes, n: nat): Read<Argv> {
    if n == 0 then Got([], s)
    else
      match ReadArg(s)
      case Got(arg, rest) =>
        (match ReadArgs(rest, n - 1)
         case Got(args, rest') => Got([arg] + args, rest')
         case Eof => Eof
         case Bad => Bad)
      case Eof => Eof
      case Bad => Bad
  }

  function ReadCommand(s: Bytes): Read<Argv>
    requires s != []
  {
    var line := Gets(s);
    if line[0] != STAR then Bad
    else if |line| == 1 then Eof
    else if line[1] == 0 || Value(line[1..], 0) < 1 then Bad
    else ReadArgs(s[|line|..], Value(line[1..], 0))
  }

  // ---------- the reader undoes the printer ----------

  lemma {:induction false} GetsLine(head: Bytes, rest: Bytes, n: nat)
    requires LF !in head && |head| < n
    ensures GetsUpTo(head + [LF] + rest, n) == head + [LF]
  {
    var s := head + [LF] + rest;
    if head == [] {
      assert s[0] == LF;
    } else {
      assert s[1..] == head[1..] + [LF] + rest;
      GetsLine(head[1..], rest, n - 1);
    }
  }

  lemma {:induction false} GetsCut(head: Bytes, n: nat)
    requires LF !in head && |head| <= n
    ensures GetsUpTo(head, n) == head
  {
    if head != [] { GetsCut(head[1..], n - 1); }
  }

  /** A count line is short, has no newline before its end, and its first digits cut or whole. */
  lemma CountLine(prefix: Byte, n: nat)
    requires prefix != LF && n < 0x8000_0000_0000_0000
    ensures var d := Digits(n); LF !in [prefix] + d + [CR] && |d| <= 19
  {
    assert Pow10(19) > n by { Pow10Of19(); }
    DigitsLength(n, 19);
  }

  lemma Pow10Of19()
    ensures Pow10(19) == 10000000000000000000
  {
    assert Pow10(10) == 10000000000;
    assert Pow10(19) == 1000000000 * Pow10(10);
  }

  lemma GetsCount(prefix: Byte, n: nat, rest: Bytes)
    requires prefix != LF && n < 0x8000_0000_0000_0000
    ensures var line := Gets(EncodeCount(prefix, n) + rest);
            && line == EncodeCount(prefix, n) && |line| > 1 && line[0] == prefix && IsDigit(line[1])
            && Value(line[1..], 0) == n
            && (EncodeCount(prefix, n) + rest)[|line|..] == rest
  {
    var head := [prefix] + Digits(n) + [CR];
    CountLine(prefix, n);
    assert EncodeCount(prefix, n) + rest == head + [LF] + rest;
    GetsLine(head, rest, LINE);
    assert EncodeCount(prefix, n)[1..] == Digits(n) + CRLF;
    ValueReadsDigits(n, CRLF);
  }

  /** Cut inside a count line, everything that is left is the line. */
  lemma GetsCutCount(prefix: Byte, n: nat, k: nat)
    requires prefix != LF && n < 0x8000_0000_0000_0000 && 1 <= k < |EncodeCount(prefix, n)|
    ensures var s := EncodeCount(prefix, n)[..k];
            && Gets(s) == s && s[0] == prefix
            && (1 < k && n >= 1 ==> IsDigit(s[1]) && Value(s[1..], 0) >= 1)
  {
    var d := Digits(n);
    var s := EncodeCount(prefix, n)[..k];
    CountLine(prefix, n);
    var head := [prefix] + d + [CR];
    assert s == head[..k];
    assert forall b | b in s :: b in head;
    GetsCut(s, LINE);
    if 1 < k && n >= 1 {
      if k <= |d| + 1 {
        assert s[1..] == d[..k - 1];
        ValueOfCutDigits(n, k - 1);
      } else {
        assert s[1..] == d + [CR];
        ValueReadsDigits(n, [CR]);
      }
    }
  }

  lemma ReadArgFull(arg: Bytes, rest: Bytes)
    requires |arg| < 0x8000_0000_0000_0000
    ensures ReadArg(EncodeArg(arg) + rest) == Got(arg, rest)
  {
    var s := EncodeArg(arg) + rest;
    var body := arg + CRLF + rest;
    assert s == EncodeCount(DOLLAR, |arg|) + body;
    GetsCount(DOLLAR, |arg|, body);
    assert body[..|arg|] == arg && body[|arg| + 2..] == rest;
  }

  lemma ReadArgCut(arg: Bytes, k: nat)
    requires |arg| < 0x8000_0000_0000_0000 && k < |EncodeArg(arg)|
    ensures ReadArg(EncodeArg(arg)[..k]) == Eof
  {
    var head := EncodeCount(DOLLAR, |arg|);
    var s := EncodeArg(arg)[..k];
    if 1 <= k < |head| {
      assert s == head[..k];
      GetsCutCount(DOLLAR, |arg|, k);
    } else if |head| <= k {
      var body := (arg + CRLF)[..k - |head|];
      assert s == head + body;
      GetsCount(DOLLAR, |arg|, body);
    }
  }

  lemma {:induction false} ReadArgsFull(args: Argv, rest: Bytes)
    requires forall i | 0 <= i < |args| :: |args[i]| < 0x8000_0000_0000_0000
    ensures ReadArgs(EncodeArgs(args) + rest, |args|) == Got(args, rest)
  {
    hide ReadArg, EncodeArg;
    if args == [] {
      assert EncodeArgs(args) + rest == rest;
    } else {
      var tail := EncodeArgs(args[1..]) + rest;
      assert EncodeArgs(args) + rest == EncodeArg(args[0]) + tail;
      ReadArgFull(args[0], tail);
      ReadArgsFull(args[1..], rest);
      assert [args[0]] + args[1..] == args;
    }
  }

  lemma {:induction false} ReadArgsCut(args: Argv, k: nat)
    requires forall i | 0 <= i < |args| :: |args[i]| < 0x8000_0000_0000_0000
    requires k < |EncodeArgs(args)|
    ensures ReadArgs(EncodeArgs(args)[..k], |args|) == Eof
  {
    hide ReadArg, EncodeArg;
    var s := EncodeArgs(args)[..k];
    var first := EncodeArg(args[0]);
    if k < |first| {
      assert s == first[..k];
      ReadArgCut(args[0], k);
    } else {
      var tail := EncodeArgs(args[1..])[..k - |first|];
      assert s == first + tail;
      ReadArgFull(args[0], tail);
      ReadArgsCut(args[1..], k - |first|);
    }
  }

  lemma ReadCommandFull(argv: Argv, rest: Bytes)
    requires Encodable(argv)
    ensures EncodeCommand(argv) != [] && ReadCommand(EncodeCommand(argv) + rest) == Got(argv, rest)
  {
    hide ReadArgs, EncodeArgs, EncodeCount;
    var body := EncodeArgs(argv) + rest;
    assert EncodeCommand(argv) + rest == EncodeCount(STAR, |argv|) + body;
    GetsCount(STAR, |argv|, body);
    ReadArgsFull(argv, rest);
  }

  lemma ReadCommandCut(argv: Argv, k: nat)
    requires Encodable(argv) && 1 <= k < |EncodeCommand(argv)|
    ensures ReadCommand(EncodeCommand(argv)[..k]) == Eof
  {
    hide EncodeArgs, EncodeCount;
    var head := EncodeCount(STAR, |argv|);
    var s := EncodeCommand(argv)[..k];
    if k < |head| {
      assert s == head[..k];
      GetsCutCount(STAR, |argv|, k);
    } else {
      var body := EncodeArgs(argv)[..k - |head|];
      assert s == head + body;
      GetsCount(STAR, |argv|, body);
      ReadArgsCut(argv, k - |head|);
    }
  }

  // ---------- the whole file ----------

  /** Loaded: the end was reached outside a transaction.  Truncated: the file ended early and was
      cut back to offset.  Fatal: the server exits. */
  datatype Outcome = Loaded(s: Session) | Truncated(s: Session, offset: nat) | Fatal

  /** An unexpected end of file: with aof-load-truncated the open transaction is dropped. */
  function ShortRead(s: Session, offset: nat, loadTruncated: bool): Outcome {
    if loadTruncated then Truncated(s.(multi := None), offset) else Fatal
  }

  lemma {:induction false} ReadArgsShrinks(s: Bytes, n: nat)
    ensures ReadArgs(s, n).Got? ==> |ReadArgs(s, n).rest| <= |s|
  {
    if n > 0 && ReadArg(s).Got? { ReadArgsShrinks(ReadArg(s).rest, n - 1); }
  }

  /** Load what follows position pos: valid_up_to is pos, beforeMulti is valid_before_multi. */
  function LoadFrom(fx: Effect, file: Bytes, pos: nat, s: Session, beforeMulti: nat, loadTruncated: bool): Outcome
    requires pos <= |file| && Valid(s)
    decreases |file| - pos
  {
    if pos == |file| then
      if s.multi.Some? then ShortRead(s, beforeMulti, loadTruncated) else Loaded(s)
    else
      match ReadCommand(file[pos..])
      case Bad => Fatal
      case Eof => ShortRead(s, pos, loadTruncated)
      case Got(argv, rest) =>
        ReadArgsShrinks(file[pos..][|Gets(file[pos..])|..], Value(Gets(file[pos..])[1..], 0));
        LoadFrom(fx, file, |file| - |rest|, Run(fx, s, argv), if Is(argv, MULTI) then pos else beforeMulti,
                 loadTruncated)
  }

  function Load(fx: Effect, file: Bytes, s: Session, loadTruncated: bool): Outcome
    requires Valid(s)
  {
    LoadFrom(fx, file, 0, s, 0, loadTruncated)
  }

  // ---------- the loop ----------

  /** The arguments already read, then the rest of a read. */
  ghost function After(args: Argv, r: Read<Argv>): Read<Argv> {
    if r.Got? then Got(args + r.value, r.rest) else r
  }

  method ReadOneArg(file: Bytes, pos: nat) returns (r: Read<Bytes>, next: nat)
    requires pos <= |file|
    ensures r == ReadArg(file[pos..])
    ensures r.Got? ==> next <= |file| && r.rest == file[next..]
  {
    if pos == |file| { return Eof, pos; }
    var line := Gets(file[pos..]);
    if line[0] != DOLLAR { return Bad, pos; }
    var len := Value(line[1..], 0);
    var body := pos + |line|;
    assert file[pos..][|line|..] == file[body..];
    if |file| - body < len + 2 { return Eof, pos; }
    assert file[body..][..len] == file[body..body + len] && file[body..][len + 2..] == file[body + len + 2..];
    return Got(file[body..body + len], file[body + len + 2..]), body + len + 2;
  }

  method ReadArguments(file: Bytes, start: nat, argc: nat) returns (r: Read<Argv>)
    requires start <= |file|
    ensures r == ReadArgs(file[start..], argc)
  {
    hide ReadArg;
    var argv: Argv, pos: nat, j: nat := [], start, 0;
    ghost var all := ReadArgs(file[start..], argc);
    assert all.Got? ==> [] + all.value == all.value;
    while j < argc
      invariant j <= argc && pos <= |file|
      invariant all == After(argv, ReadArgs(file[pos..], argc - j))
    {
      var arg, next := ReadOneArg(file, pos);
      if arg.Eof? { return Eof; }
      if arg.Bad? { return Bad; }
      ghost var tail := ReadArgs(file[next..], argc - j - 1);
      assert tail.Got? ==> argv + ([arg.value] + tail.value) == argv + [arg.value] + tail.value;
      argv, pos, j := argv + [arg.value], next, j + 1;
    }
    assert argv + [] == argv;
    return Got(argv, file[pos..]);
  }

  method ReadOne(file: Bytes, pos: nat) returns (r: Read<Argv>)
    requires pos < |file|
    ensures r == ReadCommand(file[pos..])
    ensures r.Got? ==> |r.rest| < |file| - pos
  {
    var line := Gets(file[pos..]);
    if line[0] != STAR { return Bad; }
    if |line| == 1 { return Eof; }
    if line[1] == 0 || Value(line[1..], 0) < 1 { return Bad; }
    r := ReadArguments(file, pos + |line|, Value(line[1..], 0));
    assert file[pos..][|line|..] == file[pos + |line|..];
    ReadArgsShrinks(file[pos + |line|..], Value(line[1..], 0));
  }

  /** loadAppendOnlyFile: run the commands of the file one by one.  A short read is survived if
      aof-load-truncated is set and the file can be truncated. */
  method LoadAppendOnlyFile(fx: Effect, file: Bytes, s0: Session, loadTruncated: bool, truncates: bool)
    returns (o: Outcome)
    requires Valid(s0)
    ensures o == Load(fx, file, s0, loadTruncated && truncates)
  {
    hide ReadCommand, Run;
    var survives := loadTruncated && truncates;
    var s: Session, pos: nat, beforeMulti: nat := s0, 0, 0;
    while pos < |file|
      invariant pos <= |file| && Valid(s)
      invariant LoadFrom(fx, file, pos, s, beforeMulti, survives) == Load(fx, file, s0, survives)
      decreases |file| - pos
    {
      var r := ReadOne(file, pos);
      if r.Bad? { return Fatal; }
      if r.Eof? { return ShortRead(s, pos, survives); }
      if Is(r.value, MULTI) { beforeMulti := pos; }
      s := Run(fx, s, r.value);
      pos := |file| - |r.rest|;
    }
    if s.multi.Some? { return ShortRead(s, beforeMulti, survives); }
    return Loaded(s);
  }

  // ---------- a log cut at any byte ----------

  /** How many commands of the log lie wholly within its first k bytes. */
  ghost function Complete(cmds: seq<Argv>, k: nat): (n: nat)
    ensures n <= |cmds| && |EncodeLog(cmds[..n])| <= k
    ensures n < |cmds| ==> k < |EncodeLog(cmds[..n + 1])|
  {
    if cmds == [] || k < |EncodeCommand(cmds[0])| then
      assert cmds != [] ==> EncodeLog(cmds[..1]) == EncodeCommand(cmds[0]) by {
        if cmds != [] { assert cmds[..1][1..] == []; }
      }
      0
    else
      var n := Complete(cmds[1..], k - |EncodeCommand(cmds[0])|);
      assert cmds[..n + 1][1..] == cmds[1..][..n];
      assert n + 1 < |cmds| ==> cmds[..n + 2][1..] == cmds[1..][..n + 1];
      n + 1
  }

  /** Where the last MULTI of a log that starts at pos begins. */
  ghost function MultiStart(cmds: seq<Argv>, pos: nat, beforeMulti: nat): nat
    decreases |cmds|
  {
    if cmds == [] then beforeMulti
    else MultiStart(cmds[1..], pos + |EncodeCommand(cmds[0])|, if Is(cmds[0], MULTI) then pos else beforeMulti)
  }

  /** What loading the rest of a cut log must give. */
  ghost function Expected(fx: Effect, cmds: seq<Argv>, k: nat, pos: nat, s: Session, beforeMulti: nat,
                          loadTruncated: bool): Outcome
    requires Valid(s)
  {
    var n := Complete(cmds, k);
    var r := RunAll(fx, s, cmds[..n]);
    var at := |EncodeLog(cmds[..n])|;
    if at == k && r.multi.None? then Loaded(r)
    else ShortRead(r, if at == k then MultiStart(cmds[..n], pos, beforeMulti) else pos + at, loadTruncated)
  }

  lemma ExpectedStep(fx: Effect, cmds: seq<Argv>, k: nat, pos: nat, s: Session, beforeMulti: nat, flag: bool)
    requires Valid(s) && cmds != [] && |EncodeCommand(cmds[0])| <= k
    ensures var len := |EncodeCommand(cmds[0])|;
            Expected(fx, cmds, k, pos, s, beforeMulti, flag)
            == Expected(fx, cmds[1..], k - len, pos + len, Run(fx, s, cmds[0]),
                        if Is(cmds[0], MULTI) then pos else beforeMulti, flag)
  {
    var n := Complete(cmds, k);
    assert cmds[..n][1..] == cmds[1..][..n - 1];
  }

  lemma {:induction false} LoadCutFrom(fx: Effect, done: Bytes, cmds: seq<Argv>, k: nat, s: Session,
                                       beforeMulti: nat, flag: bool)
    requires Valid(s) && k <= |EncodeLog(cmds)|
    requires forall i | 0 <= i < |cmds| :: Encodable(cmds[i])
    ensures LoadFrom(fx, done + EncodeLog(cmds)[..k], |done|, s, beforeMulti, flag)
            == Expected(fx, cmds, k, |done|, s, beforeMulti, flag)
    decreases |cmds|
  {
    hide ReadCommand, EncodeCommand, Run;
    var file := done + EncodeLog(cmds)[..k];
    assert file[|done|..] == EncodeLog(cmds)[..k];
    assert cmds[..0] == [];
    if k == 0 {
      if cmds != [] { ReadCommandFull(cmds[0], []); }
    } else {
      var first := EncodeCommand(cmds[0]);
      if k < |first| {
        assert EncodeLog(cmds)[..k] == first[..k];
        ReadCommandCut(cmds[0], k);
      } else {
        var tail := EncodeLog(cmds[1..])[..k - |first|];
        assert EncodeLog(cmds)[..k] == first + tail;
        ReadCommandFull(cmds[0], tail);
        assert file == (done + first) + tail;
        LoadCutFrom(fx, done + first, cmds[1..], k - |first|, Run(fx, s, cmds[0]),
                    if Is(cmds[0], MULTI) then |done| else beforeMulti, flag);
        ExpectedStep(fx, cmds, k, |done|, s, beforeMulti, flag);
      }
    }
  }

  /** The loader undoes the printer on every prefix.  A log cut at byte k never reaches the format
      error exit.  Memory then holds exactly the complete commands, with an open transaction
      dropped.  The file is cut back to the end of the last complete command, except that a cut
      exactly after a command of an open transaction goes back to before its MULTI. */
  lemma LoadOfCutLog(fx: Effect, cmds: seq<Argv>, k: nat, s: Session, loadTruncated: bool)
    requires Valid(s) && s.multi.None? && k <= |EncodeLog(cmds)|
    requires forall i | 0 <= i < |cmds| :: Encodable(cmds[i])
    ensures var n := Complete(cmds, k);
            var r := RunAll(fx, s, cmds[..n]);
            var at := |EncodeLog(cmds[..n])|;
            Load(fx, EncodeLog(cmds)[..k], s, loadTruncated)
            == if at == k && r.multi.None? then Loaded(r)
               else if !loadTruncated then Fatal
               else Truncated(r.(multi := None), if at == k then MultiStart(cmds[..n], 0, 0) else at)
  {
    assert [] + EncodeLog(cmds)[..k] == EncodeLog(cmds)[..k];
    LoadCutFrom(fx, [], cmds, k, s, 0, loadTruncated);
  }

  /** In particular a whole log without an open transaction loads to what its commands do. */
  lemma LoadOfLog(fx: Effect, cmds: seq<Argv>, s: Session, loadTruncated: bool)
    requires Valid(s) && s.multi.None? && RunAll(fx, s, cmds).multi.None?
    requires forall i | 0 <= i < |cmds| :: Encodable(cmds[i])
    ensures Load(fx, EncodeLog(cmds), s, loadTruncated) == Loaded(RunAll(fx, s, cmds))
  {
    var k := |EncodeLog(cmds)|;
    LoadOfCutLog(fx, cmds, k, s, loadTruncated);
    assert EncodeLog(cmds)[..k] == EncodeLog(cmds);
    CompleteAll(cmds);
    assert cmds[..|cmds|] == cmds;
  }

  lemma {:induction false} CompleteAll(cmds: seq<Argv>)
    ensures Complete(cmds, |EncodeLog(cmds)|) == |cmds|
  {
    if cmds != [] { CompleteAll(cmds[1..]); }
  }

  // ---------- appending to a truncated file ----------

  /** A log that goes on with any later commands ends in the databases that memory would have. */
  ghost predicate Faithful(fx: Effect, kept: seq<Argv>, s: Session, memory: Session)
    requires Valid(s) && Valid(memory)
  {
    forall more: seq<Argv> :: RunAll(fx, s, kept + more).dbs == RunAll(fx, memory, more).dbs
  }

  /** No MULTI inside a transaction, as the server writes its log. */
  ghost predicate NotNested(fx: Effect, s: Session, cmds: seq<Argv>)
    requires Valid(s)
  {
    forall i | 0 <= i < |cmds| && Is(cmds[i], MULTI) :: RunAll(fx, s, cmds[..i]).multi.None?
  }

  lemma {:induction false} MultiStartNext(cmds: seq<Argv>, c: Argv, pos: nat, beforeMulti: nat)
    ensures MultiStart(cmds + [c], pos, beforeMulti)
            == if Is(c, MULTI) then pos + |EncodeLog(cmds)| else MultiStart(cmds, pos, beforeMulti)
    decreases |cmds|
  {
    if cmds == [] {
      assert (cmds + [c])[1..] == [];
    } else {
      assert (cmds + [c])[1..] == cmds[1..] + [c];
      MultiStartNext(cmds[1..], c, pos + |EncodeCommand(cmds[0])|, if Is(cmds[0], MULTI) then pos else beforeMulti);
    }
  }

  lemma RunNext(fx: Effect, s: Session, cmds: seq<Argv>, c: Argv)
    requires Valid(s)
    ensures RunAll(fx, s, cmds + [c]) == Run(fx, RunAll(fx, s, cmds), c)
  {
    RunAllAppend(fx, s, cmds, [c]);
    assert [c][1..] == [];
  }

  /** The commands before the last MULTI. */
  ghost function LastMulti(cmds: seq<Argv>): (m: nat)
    ensures m <= |cmds|
  {
    if cmds == [] then 0
    else if Is(cmds[|cmds| - 1], MULTI) then |cmds| - 1
    else LastMulti(cmds[..|cmds| - 1])
  }

  /** The commands that are left in a log cut at byte k, if the cut is not inside a command of an open
      transaction: all complete ones, or those before the MULTI that was left open. */
  ghost function KeptCmds(fx: Effect, cmds: seq<Argv>, k: nat, s: Session): (m: nat)
    requires Valid(s)
    ensures m <= Complete(cmds, k)
  {
    var kept := cmds[..Complete(cmds, k)];
    if RunAll(fx, s, kept).multi.None? then |kept| else LastMulti(kept)
  }

  /** The cut is not inside a command of an open transaction. */
  ghost predicate CleanCut(fx: Effect, cmds: seq<Argv>, k: nat, s: Session)
    requires Valid(s)
  {
    var kept := cmds[..Complete(cmds, k)];
    RunAll(fx, s, kept).multi.None? || |EncodeLog(kept)| == k
  }

  /** An open transaction began at the last MULTI, and nothing it queued has run. */
  lemma {:induction false} OpenTransaction(fx: Effect, s: Session, cmds: seq<Argv>)
    requires Valid(s) && s.multi.None? && NotNested(fx, s, cmds) && RunAll(fx, s, cmds).multi.Some?
    ensures var m := LastMulti(cmds);
            && m < |cmds| && MultiStart(cmds, 0, 0) == |EncodeLog(cmds[..m])|
            && RunAll(fx, s, cmds[..m]) == RunAll(fx, s, cmds).(multi := None)
    decreases |cmds|
  {
    hide Exec, ExecAll, EncodeCommand;
    var init, c := cmds[..|cmds| - 1], cmds[|cmds| - 1];
    assert cmds == init + [c];
    RunNext(fx, s, init, c);
    MultiStartNext(init, c, 0, 0);
    if !Is(c, MULTI) {
      assert forall i | 0 <= i < |init| :: init[i] == cmds[i] && init[..i] == cmds[..i];
      OpenTransaction(fx, s, init);
      assert cmds[..LastMulti(init)] == init[..LastMulti(init)];
    }
  }

  /** A SET that changes the database it is run on. */
  lemma SomeSetMatters(fx: Effect, s: Session) returns (cmd: Argv)
    requires Valid(s) && s.multi.None?
    ensures !Is(cmd, MULTI) && !Is(cmd, EXEC) && Run(fx, s, cmd).dbs != s.dbs
  {
    var d := s.dbs[s.cur];
    var v := if [] in d.dict && d.dict[[]].Str? then d.dict[[]].s + [0] else [];
    cmd := [SET, [], v];
    assert Upper(SET) == SET;
    assert |SET| == 3 && |MULTI| == 5 && |EXEC| == 4 && |SELECT| == 6;
    assert |MOVE| == 4 && |SWAPDB| == 6 && |FLUSHALL| == 8;
    assert Run(fx, s, cmd).dbs[s.cur].dict[[]] == Str(v);
  }

  /** After a load of a log cut cleanly, file and memory are those of the commands kept. */
  lemma CleanLoad(fx: Effect, cmds: seq<Argv>, k: nat, s: Session)
    requires Valid(s) && s.multi.None? && NotNested(fx, s, cmds) && k <= |EncodeLog(cmds)|
    requires forall i | 0 <= i < |cmds| :: Encodable(cmds[i])
    requires CleanCut(fx, cmds, k, s)
    ensures var m := KeptCmds(fx, cmds, k, s);
            var o := Load(fx, EncodeLog(cmds)[..k], s, true);
            && !o.Fatal? && o.s == RunAll(fx, s, cmds[..m]) && o.s.multi.None?
            && (if o.Truncated? then o.offset else k) == |EncodeLog(cmds[..m])|
            && |EncodeLog(cmds[..m])| <= k
  {
    hide Load, RunAll, EncodeLog, Complete, LastMulti, Is, Encodable;
    LoadOfCutLog(fx, cmds, k, s, true);
    var n := Complete(cmds, k);
    var kept := cmds[..n];
    if RunAll(fx, s, kept).multi.Some? {
      assert forall i | 0 <= i < n :: kept[i] == cmds[i] && kept[..i] == cmds[..i];
      OpenTransaction(fx, s, kept);
      var m := LastMulti(kept);
      assert cmds[..m] == kept[..m];
      assert kept == kept[..m] + kept[m..];
      EncodeLogAppend(kept[..m], kept[m..]);
    }
  }

  /** After a load the server appends to what is left of the file.  For a cut log, that file still
      means what memory holds, whatever is appended, if and only if the cut was not in the middle
      of a command inside an open transaction: there the file is left inside the transaction, and
      what is appended will be queued instead of run. */
  lemma AppendingAfterLoad(fx: Effect, cmds: seq<Argv>, k: nat, s: Session) returns (m: nat)
    requires Valid(s) && s.multi.None? && NotNested(fx, s, cmds) && k <= |EncodeLog(cmds)|
    requires forall i | 0 <= i < |cmds| :: Encodable(cmds[i])
    ensures var r := RunAll(fx, s, cmds[..Complete(cmds, k)]);
            var o := Load(fx, EncodeLog(cmds)[..k], s, true);
            && m <= |cmds| && !o.Fatal?
            && o.s == r.(multi := None)
            && (if o.Truncated? then o.offset else k) == |EncodeLog(cmds[..m])|
            && (Faithful(fx, cmds[..m], s, o.s) <==> CleanCut(fx, cmds, k, s))
  {
    LoadOfCutLog(fx, cmds, k, s, true);
    var n := Complete(cmds, k);
    var kept := cmds[..n];
    var r := RunAll(fx, s, kept);
    if CleanCut(fx, cmds, k, s) {
      CleanLoad(fx, cmds, k, s);
      m := KeptCmds(fx, cmds, k, s);
      RunsOn(fx, cmds[..m], s);
    } else {
      m := n;
      StuckInside(fx, kept, s);
    }
  }

  /** A log left inside a transaction is not continued faithfully. */
  lemma StuckInside(fx: Effect, kept: seq<Argv>, s: Session)
    requires Valid(s) && RunAll(fx, s, kept).multi.Some?
    ensures !Faithful(fx, kept, s, RunAll(fx, s, kept).(multi := None))
  {
    hide RunAll, Exec, ExecAll;
    var r := RunAll(fx, s, kept);
    var cmd := SomeSetMatters(fx, r.(multi := None));
    RunNext(fx, s, kept, cmd);
    RunEmpty(fx, r.(multi := None));
    RunNext(fx, r.(multi := None), [], cmd);
    assert [] + [cmd] == [cmd];
    assert RunAll(fx, s, kept + [cmd]).dbs != RunAll(fx, r.(multi := None), [cmd]).dbs;
  }

  lemma RunEmpty(fx: Effect, s: Session)
    requires Valid(s)
    ensures RunAll(fx, s, []) == s
  {
  }

  lemma RunsOn(fx: Effect, kept: seq<Argv>, s: Session)
    requires Valid(s)
    ensures Faithful(fx, kept, s, RunAll(fx, s, kept))
  {
    forall more: seq<Argv> ensures RunAll(fx, s, kept + more).dbs == RunAll(fx, RunAll(fx, s, kept), more).dbs {
      RunAllAppend(fx, s, kept, more);
    }
  }

  /** Such a cut: anywhere inside the first command of a transaction. */
  lemma CutInsideTransaction(fx: Effect, s: Session, argv: Argv, j: nat)
    requires Valid(s) && s.multi.None? && 0 < j < |EncodeCommand(argv)|
    ensures var k := |EncodeCommand([MULTI])| + j;
            k <= |EncodeLog([[MULTI], argv])| && !CleanCut(fx, [[MULTI], argv], k, s)
  {
    var cmds := [[MULTI], argv];
    var k := |EncodeCommand([MULTI])| + j;
    hide EncodeCommand;
    assert cmds[1..] == [argv] && cmds[..1] == [[MULTI]];
    var one, two := cmds[..1], cmds[1..];
    assert one[1..] == [] && two[1..] == [] && cmds[..2] == cmds;
    assert EncodeLog(one) == EncodeCommand([MULTI]) && EncodeLog(two) == EncodeCommand(argv);
    assert EncodeLog(cmds) == EncodeCommand([MULTI]) + EncodeCommand(argv);
    assert Complete(cmds, k) == 1;
    assert Upper(MULTI) == MULTI;
    assert one[0][0] == MULTI;
    assert RunAll(fx, s, one) == Run(fx, s, [MULTI]) == s.(multi := Some([]));
  }
}
