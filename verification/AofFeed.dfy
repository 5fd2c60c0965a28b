/** Feeding the append-only file while the server runs: relative deadlines become absolute ones,
    SET with options is taken apart, and SELECT is only written when the database changes. */
module AofFeed {
  import opened Common
  import opened Resp
  import opened Dataset
  import opened AofRewrite

  // ---------- SET options ----------

  /** The options of SET as the command parses them. */
  datatype SetArgs = SetArgs(nx: bool, xx: bool, ex: bool, px: bool, expire: Option<Bytes>)

  const NO_ARGS := SetArgs(false, false, false, false, None)

  /** The option loop of setCommand, from argument j on; None is a syntax error. */
  function ParseSet(argv: Argv, j: nat, acc: SetArgs): Option<SetArgs>
    decreases |argv| - j
  {
    if j >= |argv| then Some(acc)
    else
      var a := Upper(argv[j]);
      if a == NX && !acc.xx then ParseSet(argv, j + 1, acc.(nx := true))
      else if a == XX && !acc.nx then ParseSet(argv, j + 1, acc.(xx := true))
      else if a == EX && !acc.px && j + 1 < |argv| then
        ParseSet(argv, j + 2, acc.(ex := true, expire := Some(argv[j + 1])))
      else if a == PX && !acc.ex && j + 1 < |argv| then
        ParseSet(argv, j + 2, acc.(px := true, expire := Some(argv[j + 1])))
      else None
  }

  /** The option scan of feedAppendOnlyFile for one word, from argument i on: it looks at every
      argument, and the last one found counts. */
  function Scan(argv: Argv, i: nat, word: Bytes, found: Option<Bytes>): Option<Bytes>
    decreases |argv| - i
  {
    if i >= |argv| then found
    else
      var next := if i + 1 < |argv| then Some(argv[i + 1]) else None;
      Scan(argv, i + 1, word, if Upper(argv[i]) == word then next else found)
  }

  function TtlWord(seconds: bool): Bytes { if seconds then EX else PX }

  /** Some time to live given to SET is itself the word for the other kind of time to live. */
  predicate Clashes(argv: Argv, j: nat)
    decreases |argv| - j
  {
    if j + 1 >= |argv| then false
    else
      var a := Upper(argv[j]);
      if a == EX then Upper(argv[j + 1]) == PX || Clashes(argv, j + 2)
      else if a == PX then Upper(argv[j + 1]) == EX || Clashes(argv, j + 2)
      else Clashes(argv, j + 1)
  }

  /** A time to live is given at j or later. */
  predicate HasTtl(argv: Argv, j: nat)
    decreases |argv| - j
  {
    j < |argv| && (Upper(argv[j]) == EX || Upper(argv[j]) == PX || HasTtl(argv, j + 1))
  }

  lemma NumberIsNoWord(s: Bytes)
    requires DecodeInt(s).Some?
    ensures Upper(s) != EX && Upper(s) != PX
  {
    assert s != [] && (s[0] == MINUS || IsDigit(s[0]));
    assert Upper(s)[0] == s[0];
  }

  lemma {:induction false} ParseKeeps(argv: Argv, j: nat, acc: SetArgs)
    requires ParseSet(argv, j, acc).Some?
    ensures var r := ParseSet(argv, j, acc).value;
            && (acc.ex ==> r.ex) && (acc.px ==> r.px)
            && (!HasTtl(argv, j) ==> r.expire == acc.expire && r.ex == acc.ex && r.px == acc.px)
    decreases |argv| - j
  {
    if j < |argv| {
      var a := Upper(argv[j]);
      if a == NX && !acc.xx { ParseKeeps(argv, j + 1, acc.(nx := true)); }
      else if a == XX && !acc.nx { ParseKeeps(argv, j + 1, acc.(xx := true)); }
      else if a == EX { ParseKeeps(argv, j + 2, acc.(ex := true, expire := Some(argv[j + 1]))); }
      else { ParseKeeps(argv, j + 2, acc.(px := true, expire := Some(argv[j + 1]))); }
    }
  }

  predicate OfKind(r: SetArgs, seconds: bool) { r.ex == seconds && r.px == !seconds }

  /** What the scan makes of an option word and its value, at j and j + 1. */
  lemma ScanPair(argv: Argv, j: nat, word: Bytes, found: Option<Bytes>)
    requires j + 1 < |argv|
    ensures var next := if j + 2 < |argv| then Some(argv[j + 2]) else None;
            var first := if Upper(argv[j]) == word then Some(argv[j + 1]) else found;
            Scan(argv, j, word, found) == Scan(argv, j + 2, word, if Upper(argv[j + 1]) == word then next else first)
  {
    hide Upper;
  }

  /** An option with a time to live at j. */
  lemma ParsePair(argv: Argv, j: nat, acc: SetArgs)
    requires ParseSet(argv, j, acc).Some? && j < |argv|
    requires !(Upper(argv[j]) == NX && !acc.xx) && !(Upper(argv[j]) == XX && !acc.nx)
    ensures j + 1 < |argv| && HasTtl(argv, j)
    ensures var a, v := Upper(argv[j]), Some(argv[j + 1]);
            var acc' := if a == EX then acc.(ex := true, expire := v) else acc.(px := true, expire := v);
            && (a == EX || a == PX)
            && ParseSet(argv, j + 2, acc') == ParseSet(argv, j, acc)
            && (Clashes(argv, j) <==> Upper(argv[j + 1]) == (if a == EX then PX else EX) || Clashes(argv, j + 2))
  {
    hide Upper;
  }

  /** The scan for the word the command was given finds the time to live the command uses; the scan
      for the other word finds nothing exactly when there is no clash. */
  lemma {:induction false} ScanFollowsParse(argv: Argv, j: nat, acc: SetArgs, seconds: bool,
                                            own: Option<Bytes>, other: Option<Bytes>)
    requires ParseSet(argv, j, acc).Some?
    requires var r := ParseSet(argv, j, acc).value;
             OfKind(r, seconds) && r.expire.Some? && DecodeInt(r.expire.value).Some?
    requires own == acc.expire || HasTtl(argv, j)
    ensures Scan(argv, j, TtlWord(seconds), own) == ParseSet(argv, j, acc).value.expire
    ensures Scan(argv, j, TtlWord(!seconds), other).Some? <==> other.Some? || Clashes(argv, j)
    decreases |argv| - j, 1
  {
    hide Upper, DecodeInt;
    if j < |argv| {
      var a := Upper(argv[j]);
      if a == NX && !acc.xx {
        ScanFollowsParse(argv, j + 1, acc.(nx := true), seconds, own, other);
      } else if a == XX && !acc.nx {
        ScanFollowsParse(argv, j + 1, acc.(xx := true), seconds, own, other);
      } else {
        ScanFollowsPair(argv, j, acc, seconds, own, other);
      }
    }
  }

  lemma {:induction false} ScanFollowsPair(argv: Argv, j: nat, acc: SetArgs, seconds: bool,
                                           own: Option<Bytes>, other: Option<Bytes>)
    requires ParseSet(argv, j, acc).Some? && j < |argv|
    requires !(Upper(argv[j]) == NX && !acc.xx) && !(Upper(argv[j]) == XX && !acc.nx)
    requires var r := ParseSet(argv, j, acc).value;
             OfKind(r, seconds) && r.expire.Some? && DecodeInt(r.expire.value).Some?
    ensures Scan(argv, j, TtlWord(seconds), own) == ParseSet(argv, j, acc).value.expire
    ensures Scan(argv, j, TtlWord(!seconds), other).Some? <==> other.Some? || Clashes(argv, j)
    decreases |argv| - j, 0
  {
    hide Upper, DecodeInt, Scan, ParseSet, HasTtl, Clashes;
    ParsePair(argv, j, acc);
    var a, v := Upper(argv[j]), argv[j + 1];
    var acc' := if a == EX then acc.(ex := true, expire := Some(v)) else acc.(px := true, expire := Some(v));
    ParseKeeps(argv, j + 2, acc');
    assert a == TtlWord(seconds);
    if j + 2 >= |argv| { NoTtlAtEnd(argv, j + 2); }
    if !HasTtl(argv, j + 2) { NumberIsNoWord(v); }
    var next := if j + 2 < |argv| then Some(argv[j + 2]) else None;
    ScanPair(argv, j, TtlWord(seconds), own);
    ScanPair(argv, j, TtlWord(!seconds), other);
    var other' := if Upper(v) == TtlWord(!seconds) then next else other;
    ScanFollowsParse(argv, j + 2, acc', seconds, if Upper(v) == a then next else Some(v), other');
  }

  lemma NoTtlAtEnd(argv: Argv, j: nat)
    requires j >= |argv|
    ensures !HasTtl(argv, j)
  {
  }

  lemma {:induction false} ScanWithoutTtl(argv: Argv, j: nat, acc: SetArgs, word: Bytes)
    requires ParseSet(argv, j, acc).Some? && !HasTtl(argv, j) && (word == EX || word == PX)
    ensures Scan(argv, j, word, None).None?
    decreases |argv| - j
  {
    if j < |argv| {
      if Upper(argv[j]) == NX && !acc.xx {
        ScanWithoutTtl(argv, j + 1, acc.(nx := true), word);
      } else {
        ScanWithoutTtl(argv, j + 1, acc.(xx := true), word);
      }
    }
  }

  // ---------- running a command on a live master ----------

  /** The database afterwards, and the commands handed to the append-only file. */
  datatype Live = Live(d: Db, fed: seq<Argv>)

  /** A key past its deadline is deleted when it is looked up, and a DEL is fed for it. */
  function ExpireIfNeeded(d: Db, k: Bytes, now: int): Live {
    if k in d.expires && 0 <= d.expires[k] < now then Live(Delete(d, {k}), [[DEL, k]]) else Live(d, [])
  }

  predicate IsExpire(argv: Argv) {
    |argv| == 3 && (Is(argv, EXPIRE) || Is(argv, PEXPIRE) || Is(argv, EXPIREAT) || Is(argv, PEXPIREAT))
  }

  predicate IsSetEx(argv: Argv) { |argv| == 4 && (Is(argv, SETEX) || Is(argv, PSETEX)) }

  function Unit(argv: Argv): int {
    if Is(argv, EXPIRE) || Is(argv, EXPIREAT) || Is(argv, SETEX) then 1000 else 1
  }

  predicate Relative(argv: Argv) {
    Is(argv, EXPIRE) || Is(argv, PEXPIRE) || Is(argv, SETEX) || Is(argv, PSETEX)
  }

  /** The absolute deadline of a time to live or timestamp given at time now. */
  function When(argv: Argv, param: int, now: int): int {
    param * Unit(argv) + if Relative(argv) then now else 0
  }

  /** expireGenericCommand on a master that is not loading: a deadline already reached deletes. */
  function LiveExpire(d: Db, argv: Argv, now: int): Live
    requires IsExpire(argv)
  {
    var k := argv[1];
    var param := DecodeInt(argv[2]);
    if param.None? then Live(d, [])
    else
      var Live(d1, fed) := ExpireIfNeeded(d, k, now);
      var when := When(argv, param.value, now);
      if k !in d1.dict then Live(d1, fed)
      else if when <= now then Live(Delete(d1, {k}), fed + [[DEL, k]])
      else Live(d1.(expires := d1.expires[k := when]), fed + [argv])
  }

  /** setGenericCommand with a time to live in milliseconds, if any. */
  function LiveSetKey(d: Db, argv: Argv, k: Bytes, v: Bytes, nx: bool, xx: bool, ttl: Option<int>, now: int): Live {
    if ttl.Some? && ttl.value <= 0 then Live(d, [])
    else
      var Live(d1, fed) := ExpireIfNeeded(d, k, now);
      if (nx && k in d1.dict) || (xx && k !in d1.dict) then Live(d1, fed)
      else
        var d2 := SetStr(d1, k, v);
        Live(if ttl.Some? then d2.(expires := d2.expires[k := now + ttl.value]) else d2, fed + [argv])
  }

  function LiveSetEx(d: Db, argv: Argv, now: int): Live
    requires IsSetEx(argv)
  {
    var param := DecodeInt(argv[2]);
    if param.None? then Live(d, [])
    else LiveSetKey(d, argv, argv[1], argv[3], false, false, Some(param.value * Unit(argv)), now)
  }

  function LiveSet(d: Db, argv: Argv, now: int): Live
    requires |argv| >= 3
  {
    var r := ParseSet(argv, 3, NO_ARGS);
    if r.None? then Live(d, [])
    else
      var SetArgs(nx, xx, ex, _, expire) := r.value;
      if expire.None? then LiveSetKey(d, argv, argv[1], argv[2], nx, xx, None, now)
      else if DecodeInt(expire.value).None? then Live(d, [])
      else LiveSetKey(d, argv, argv[1], argv[2], nx, xx,
                      Some(DecodeInt(expire.value).value * if ex then 1000 else 1), now)
  }

  function LiveExec(fx: Effect, d: Db, argv: Argv, now: int): Live {
    if IsExpire(argv) then LiveExpire(d, argv, now)
    else if IsSetEx(argv) then LiveSetEx(d, argv, now)
    else if Is(argv, SET) && |argv| >= 3 then LiveSet(d, argv, now)
    else Live(ExecDb(fx, d, argv), [argv])
  }

  // ---------- the translation ----------

  function Strtoll(s: Bytes): int { if DecodeInt(s).Some? then DecodeInt(s).value else 0 }

  /** catAppendOnlyExpireAtCommand at time t, for a command that counts time like `like`. */
  function ExpireAt(like: Argv, k: Bytes, param: Bytes, t: int): Argv {
    [PEXPIREAT, k, EncodeInt(When(like, Strtoll(param), t))]
  }

  /** A SET without its options, then the deadlines found among them. */
  function SetParts(argv: Argv, ex: Option<Bytes>, px: Option<Bytes>, t: int): seq<Argv>
    requires |argv| > 3
  {
    [argv[..3]]
    + (if ex.Some? then [ExpireAt([EXPIRE], argv[1], ex.value, t)] else [])
    + (if px.Some? then [ExpireAt([PEXPIRE], argv[1], px.value, t)] else [])
  }

  /** What feedAppendOnlyFile appends for a command at time t, the SELECT aside. */
  function Translate(argv: Argv, t: int): seq<Argv> {
    if IsExpire(argv) && !Is(argv, PEXPIREAT) then [ExpireAt(argv, argv[1], argv[2], t)]
    else if IsSetEx(argv) then [[SET, argv[1], argv[3]], ExpireAt(argv, argv[1], argv[2], t)]
    else if Is(argv, SET) && |argv| > 3 then
      SetParts(argv, Scan(argv, 3, EX, None), Scan(argv, 3, PX, None), t)
    else [argv]
  }

  function TranslateAll(cmds: seq<Argv>, t: int): seq<Argv> {
    if cmds == [] then [] else Translate(cmds[0], t) + TranslateAll(cmds[1..], t)
  }

  // ---------- one command ----------

  lemma MoreNames()
    ensures Upper(EXPIRE) == EXPIRE && Upper(PEXPIRE) == PEXPIRE && Upper(DEL) == DEL
    ensures |EXPIRE| == 6 && |PEXPIRE| == 7 && |EXPIREAT| == 8 && |PEXPIREAT| == 9 && |SETEX| == 5 && |PSETEX| == 6
    ensures EXPIRE[0] != PSETEX[0] && EXPIRE[0] != SELECT[0] && PSETEX[0] != SELECT[0] && SETEX[0] != MULTI[0]
    ensures EXPIRE[0] != UNLINK[0] && PSETEX[0] != UNLINK[0] && SELECT[0] != UNLINK[0] && SETEX[0] != RPUSH[0]
    ensures SETEX[0] != HMSET[0] && SET[0] != DEL[0]
  {
  }

  lemma OneKey(args: Argv, k: Bytes)
    requires args == [k]
    ensures Keys(args) == {k}
  {
    assert args[0] in Keys(args);
  }

  lemma TranslateDel(fx: Effect, d: Db, k: Bytes, t: int)
    ensures Translate([DEL, k], t) == [[DEL, k]]
    ensures ExecDb(fx, d, [DEL, k]) == Delete(d, {k})
  {
    MoreNames();
    Names();
    var argv := [DEL, k];
    assert argv[0] == DEL && argv[1..] == [k];
    OneKey(argv[1..], k);
  }

  lemma ExpireAtExec(fx: Effect, d: Db, like: Argv, k: Bytes, param: Bytes, t: int)
    ensures ExecDb(fx, d, ExpireAt(like, k, param, t))
            == if k in d.dict then d.(expires := d.expires[k := When(like, Strtoll(param), t)]) else d
  {
    var when := When(like, Strtoll(param), t);
    DeadlineExec(fx, d, k, when);
    ExecOne(fx, d, [PEXPIREAT, k, EncodeInt(when)]);
  }

  lemma SetExec(fx: Effect, d: Db, name: Bytes, k: Bytes, v: Bytes)
    requires Upper(name) == SET
    ensures ExecDb(fx, d, [name, k, v]) == SetStr(d, k, v)
  {
    Names();
    var argv := [name, k, v];
    assert argv[0] == name;
  }

  lemma ExecTwo(fx: Effect, d: Db, a: Argv, b: Argv)
    ensures ExecDbAll(fx, d, [a, b]) == ExecDb(fx, ExecDb(fx, d, a), b)
  {
    var cmds := [a, b];
    assert cmds[1..] == [b];
    ExecOne(fx, ExecDb(fx, d, a), b);
  }

  lemma TranslateFed(fed: seq<Argv>, argv: Argv, t: int)
    ensures TranslateAll(fed + [argv], t) == TranslateAll(fed, t) + Translate(argv, t)
  {
    hide Translate;
    if fed == [] {
      var all := fed + [argv];
      assert all[1..] == [];
    } else {
      assert (fed + [argv])[1..] == fed[1..] + [argv];
      TranslateFed(fed[1..], argv, t);
    }
  }

  /** Replaying what was fed for an expired key deletes it. */
  lemma ExpiredReplays(fx: Effect, d: Db, k: Bytes, now: int, t: int)
    ensures ExecDbAll(fx, d, TranslateAll(ExpireIfNeeded(d, k, now).fed, t)) == ExpireIfNeeded(d, k, now).d
  {
    TranslateFed([], [DEL, k], t);
    assert [] + [[DEL, k]] == [[DEL, k]];
    TranslateDel(fx, d, k, t);
    ExecOne(fx, d, [DEL, k]);
  }

  /** One more fed command after those of an expired key. */
  lemma FedThen(fx: Effect, d: Db, k: Bytes, now: int, t: int, argv: Argv)
    ensures var e := ExpireIfNeeded(d, k, now);
            ExecDbAll(fx, d, TranslateAll(e.fed + [argv], t)) == ExecDbAll(fx, e.d, Translate(argv, t))
  {
    hide Translate, ExecDb;
    var e := ExpireIfNeeded(d, k, now);
    TranslateFed(e.fed, argv, t);
    ExecDbAllAppend(fx, d, TranslateAll(e.fed, t), Translate(argv, t));
    ExpiredReplays(fx, d, k, now, t);
  }

  /** The command gives a time to live, counted from the moment it is translated. */
  predicate SetsTtl(argv: Argv) {
    (IsExpire(argv) && Relative(argv)) || IsSetEx(argv) || (Is(argv, SET) && HasTtl(argv, 3))
  }

  /** The command itself was fed, and not a DEL in its place or nothing. */
  predicate Fed(l: Live, argv: Argv) { l.fed != [] && l.fed[|l.fed| - 1] == argv }

  /** The live database, with the deadline the command has set put off. */
  function PutOff(l: Live, argv: Argv, delay: int): Db {
    if SetsTtl(argv) && Fed(l, argv) && |argv| > 1 && argv[1] in l.d.expires
    then l.d.(expires := l.d.expires[argv[1] := l.d.expires[argv[1]] + delay])
    else l.d
  }

  lemma ExpireReplays(fx: Effect, d: Db, argv: Argv, now: int, t: int)
    requires IsExpire(argv)
    ensures var l := LiveExpire(d, argv, now);
            ExecDbAll(fx, d, TranslateAll(l.fed, t)) == PutOff(l, argv, t - now)
  {
    hide ExecDb, Translate, TranslateAll, ExecDbAll, DecodeInt, Upper;
    MoreNames();
    var k := argv[1];
    var l := LiveExpire(d, argv, now);
    var e := ExpireIfNeeded(d, k, now);
    if DecodeInt(argv[2]).None? {
      NothingFed(fx, d, t);
    } else if k !in e.d.dict {
      ExpiredReplays(fx, d, k, now, t);
      assert !Fed(l, argv);
    } else if When(argv, DecodeInt(argv[2]).value, now) <= now {
      FedThen(fx, d, k, now, t, [DEL, k]);
      TranslateDel(fx, e.d, k, t);
      ExecOne(fx, e.d, [DEL, k]);
      assert !Fed(l, argv);
    } else {
      FedThen(fx, d, k, now, t, argv);
      ExpireTranslated(fx, e.d, argv, t);
    }
  }

  lemma NothingFed(fx: Effect, d: Db, t: int)
    ensures ExecDbAll(fx, d, TranslateAll([], t)) == d
  {
  }

  lemma ExpireTranslated(fx: Effect, d: Db, argv: Argv, t: int)
    requires IsExpire(argv) && argv[1] in d.dict && DecodeInt(argv[2]).Some?
    ensures ExecDbAll(fx, d, Translate(argv, t))
            == d.(expires := d.expires[argv[1] := When(argv, DecodeInt(argv[2]).value, t)])
  {
    hide Upper, DecodeInt;
    MoreNames();
    Names();
    if Is(argv, PEXPIREAT) {
      ExecOne(fx, d, argv);
    } else {
      ExpireAtExec(fx, d, argv, argv[1], argv[2], t);
      ExecOne(fx, d, ExpireAt(argv, argv[1], argv[2], t));
    }
  }

  lemma SetExReplays(fx: Effect, d: Db, argv: Argv, now: int, t: int)
    requires IsSetEx(argv)
    ensures var l := LiveSetEx(d, argv, now);
            ExecDbAll(fx, d, TranslateAll(l.fed, t)) == PutOff(l, argv, t - now)
  {
    hide ExecDb, Translate, TranslateAll, ExecDbAll, DecodeInt, Upper;
    MoreNames();
    var k := argv[1];
    var l := LiveSetEx(d, argv, now);
    var e := ExpireIfNeeded(d, k, now);
    if DecodeInt(argv[2]).None? || DecodeInt(argv[2]).value * Unit(argv) <= 0 {
      NothingFed(fx, d, t);
    } else {
      FedThen(fx, d, k, now, t, argv);
      SetExTranslated(fx, e.d, argv, t);
    }
  }

  lemma SetExTranslated(fx: Effect, d: Db, argv: Argv, t: int)
    requires IsSetEx(argv) && DecodeInt(argv[2]).Some?
    ensures var d' := SetStr(d, argv[1], argv[3]);
            ExecDbAll(fx, d, Translate(argv, t))
            == d'.(expires := d'.expires[argv[1] := When(argv, DecodeInt(argv[2]).value, t)])
  {
    hide ExecDb, ExecDbAll, DecodeInt, Upper;
    MoreNames();
    Names();
    var at := ExpireAt(argv, argv[1], argv[2], t);
    ExecTwo(fx, d, [SET, argv[1], argv[3]], at);
    SetExec(fx, d, SET, argv[1], argv[3]);
    ExpireAtExec(fx, SetStr(d, argv[1], argv[3]), argv, argv[1], argv[2], t);
  }

  lemma SetReplays(fx: Effect, d: Db, argv: Argv, now: int, t: int)
    requires Is(argv, SET) && |argv| >= 3 && !Clashes(argv, 3)
    ensures var l := LiveSet(d, argv, now);
            ExecDbAll(fx, d, TranslateAll(l.fed, t)) == PutOff(l, argv, t - now)
  {
    hide ExecDb, Translate, TranslateAll, ExecDbAll, DecodeInt, Upper, ParseSet, HasTtl, Clashes, Scan;
    MoreNames();
    var k := argv[1];
    var l := LiveSet(d, argv, now);
    var e := ExpireIfNeeded(d, k, now);
    if l.fed == [] {
      NothingFed(fx, d, t);
    } else if l.fed == e.fed {
      ExpiredReplays(fx, d, k, now, t);
      assert l.fed == [[DEL, k]];
    } else {
      FedThen(fx, d, k, now, t, argv);
      SetTranslated(fx, e.d, argv, t);
    }
  }

  /** What a SET the command accepts becomes. */
  lemma SetTranslated(fx: Effect, d: Db, argv: Argv, t: int)
    requires Is(argv, SET) && |argv| >= 3 && !Clashes(argv, 3) && ParseSet(argv, 3, NO_ARGS).Some?
    requires var x := ParseSet(argv, 3, NO_ARGS).value.expire; x.Some? ==> DecodeInt(x.value).Some?
    ensures var r := ParseSet(argv, 3, NO_ARGS).value;
            var d' := SetStr(d, argv[1], argv[2]);
            ExecDbAll(fx, d, Translate(argv, t))
            == (if r.expire.None? then d'
                else d'.(expires := d'.expires[argv[1] :=
                                      DecodeInt(r.expire.value).value * (if r.ex then 1000 else 1) + t]))
    ensures ParseSet(argv, 3, NO_ARGS).value.expire.Some? <==> HasTtl(argv, 3)
  {
    hide ExecDb, ExecDbAll, DecodeInt, Upper, ParseSet, HasTtl, Clashes, Scan, Translate;
    MoreNames();
    Names();
    var r := ParseSet(argv, 3, NO_ARGS).value;
    var head := argv[..3];
    assert head == [argv[0], argv[1], argv[2]];
    SetExec(fx, d, argv[0], argv[1], argv[2]);
    if !HasTtl(argv, 3) {
      PlainTranslated(argv, t, r);
      ExecOne(fx, d, head);
    } else {
      TtlHasRoom(argv);
      TtlTranslated(argv, t, r);
      var like := if r.ex then [EXPIRE] else [PEXPIRE];
      var at := ExpireAt(like, argv[1], r.expire.value, t);
      ExecTwo(fx, d, head, at);
      ExpireAtExec(fx, SetStr(d, argv[1], argv[2]), like, argv[1], r.expire.value, t);
    }
  }

  lemma TtlHasRoom(argv: Argv)
    requires HasTtl(argv, 3)
    ensures |argv| > 3
  {
  }

  lemma TtlTranslated(argv: Argv, t: int, r: SetArgs)
    requires Is(argv, SET) && |argv| > 3 && !Clashes(argv, 3) && ParseSet(argv, 3, NO_ARGS) == Some(r)
    requires HasTtl(argv, 3) && (r.expire.Some? ==> DecodeInt(r.expire.value).Some?)
    ensures r.expire.Some?
    ensures Translate(argv, t)
            == [argv[..3], ExpireAt(if r.ex then [EXPIRE] else [PEXPIRE], argv[1], r.expire.value, t)]
  {
    hide DecodeInt, Upper, Clashes, Scan, ParseSet, HasTtl, SetParts, ExpireAt;
    MoreNames();
    ParsedKind(argv, 3, NO_ARGS);
    ScanFollowsParse(argv, 3, NO_ARGS, r.ex, None, None);
    OnePart(argv, r.expire.value, t);
  }

  lemma ShortTranslated(argv: Argv, t: int)
    requires Is(argv, SET) && |argv| == 3
    ensures Translate(argv, t) == [argv[..3]]
  {
    hide Upper;
    MoreNames();
    assert argv[..3] == argv;
  }

  lemma PlainTranslated(argv: Argv, t: int, r: SetArgs)
    requires Is(argv, SET) && |argv| >= 3 && ParseSet(argv, 3, NO_ARGS) == Some(r) && !HasTtl(argv, 3)
    ensures r.expire.None?
    ensures Translate(argv, t) == [argv[..3]]
  {
    hide DecodeInt, Upper, Scan, ParseSet, HasTtl, SetParts, ExpireAt;
    MoreNames();
    ParseKeeps(argv, 3, NO_ARGS);
    if |argv| == 3 {
      ShortTranslated(argv, t);
    } else {
      OnePart(argv, [], t);
      ScanWithoutTtl(argv, 3, NO_ARGS, EX);
      ScanWithoutTtl(argv, 3, NO_ARGS, PX);
    }
  }

  lemma OnePart(argv: Argv, x: Bytes, t: int)
    requires |argv| > 3
    ensures SetParts(argv, None, None, t) == [argv[..3]]
    ensures SetParts(argv, Some(x), None, t) == [argv[..3], ExpireAt([EXPIRE], argv[1], x, t)]
    ensures SetParts(argv, None, Some(x), t) == [argv[..3], ExpireAt([PEXPIRE], argv[1], x, t)]
  {
  }

  /** A parsed time to live is of exactly one kind. */
  lemma {:induction false} ParsedKind(argv: Argv, j: nat, acc: SetArgs)
    requires ParseSet(argv, j, acc).Some?
    requires acc.expire.Some? ==> acc.ex != acc.px
    requires acc.expire.None? ==> !acc.ex && !acc.px
    ensures var r := ParseSet(argv, j, acc).value;
            && (HasTtl(argv, j) || acc.expire.Some? ==> r.expire.Some?)
            && (r.expire.Some? ==> r.ex != r.px)
            && (r.expire.None? ==> !r.ex && !r.px)
    decreases |argv| - j
  {
    if j < |argv| {
      var a := Upper(argv[j]);
      if a == NX && !acc.xx { ParsedKind(argv, j + 1, acc.(nx := true)); }
      else if a == XX && !acc.nx { ParsedKind(argv, j + 1, acc.(xx := true)); }
      else if a == EX { ParsedKind(argv, j + 2, acc.(ex := true, expire := Some(argv[j + 1]))); }
      else { ParsedKind(argv, j + 2, acc.(px := true, expire := Some(argv[j + 1]))); }
    }
  }

  /** Replaying what one command has fed gives the live database, except that a time to live counts
      from the moment of the translation: the deadline is off by exactly the time in between. */
  lemma FeedReplays(fx: Effect, d: Db, argv: Argv, now: int, t: int)
    requires Is(argv, SET) && |argv| >= 3 ==> !Clashes(argv, 3)
    ensures var l := LiveExec(fx, d, argv, now);
            ExecDbAll(fx, d, TranslateAll(l.fed, t)) == PutOff(l, argv, t - now)
  {
    hide ExecDb, Translate, TranslateAll, ExecDbAll, Upper, LiveExpire, LiveSetEx, LiveSet, HasTtl, Clashes, PutOff;
    if IsExpire(argv) {
      ExpireReplays(fx, d, argv, now, t);
    } else if IsSetEx(argv) {
      SetExReplays(fx, d, argv, now, t);
    } else if Is(argv, SET) && |argv| >= 3 {
      SetReplays(fx, d, argv, now, t);
    } else {
      OtherReplays(fx, d, argv, now, t);
    }
  }

  lemma OtherReplays(fx: Effect, d: Db, argv: Argv, now: int, t: int)
    requires !IsExpire(argv) && !IsSetEx(argv) && !(Is(argv, SET) && |argv| >= 3)
    ensures var l := LiveExec(fx, d, argv, now);
            ExecDbAll(fx, d, TranslateAll(l.fed, t)) == PutOff(l, argv, t - now)
  {
    hide ExecDb, Upper;
    TranslateFed([], argv, t);
    assert [] + [argv] == [argv];
    ExecOne(fx, d, argv);
  }

  /** Two options of SET that the command takes and the feed asserts cannot be: the value of the
      first EX is the word px, and the second EX overrides it. */
  lemma ClashingOptions()
    ensures var argv := [SET, [107], [118], EX, [112, 120], EX, [49, 48]];
            && Clashes(argv, 3)
            && ParseSet(argv, 3, NO_ARGS) == Some(NO_ARGS.(ex := true, expire := Some([49, 48])))
            && Scan(argv, 3, EX, None).Some? && Scan(argv, 3, PX, None).Some?
  {
    var argv: Argv := [SET, [107], [118], EX, [112, 120], EX, [49, 48]];
    assert Upper([112, 120]) == PX && Upper(EX) == EX;
    assert Clashes(argv, 3);
    var acc := NO_ARGS.(ex := true, expire := Some(argv[4]));
    assert ParseSet(argv, 3, NO_ARGS) == ParseSet(argv, 5, acc);
    assert ParseSet(argv, 5, acc) == ParseSet(argv, 7, NO_ARGS.(ex := true, expire := Some(argv[6])));
    assert DecodeInt([49, 48]).Some? by { TenIsANumber(); }
    ScanFollowsParse(argv, 3, NO_ARGS, true, None, None);
  }

  lemma TenIsANumber()
    ensures DecodeInt([49, 48]) == Some(10)
  {
    var s: Bytes := [49, 48];
    assert Digits(1) == [49];
    assert Digits(10) == s;
    IntRoundTrip(10);
  }

  /** The replayed database is the live one if and only if no time passed before the translation or
      the command set no deadline relative to it. */
  lemma FeedIsExact(fx: Effect, d: Db, argv: Argv, now: int, t: int)
    requires Is(argv, SET) && |argv| >= 3 ==> !Clashes(argv, 3)
    ensures var l := LiveExec(fx, d, argv, now);
            ExecDbAll(fx, d, TranslateAll(l.fed, t)) == l.d <==> t == now || !(SetsTtl(argv) && Fed(l, argv))
  {
    hide ExecDb, Translate, TranslateAll, ExecDbAll, HasTtl, Clashes, LiveExec;
    FeedReplays(fx, d, argv, now, t);
    var l := LiveExec(fx, d, argv, now);
    if SetsTtl(argv) && Fed(l, argv) {
      TtlIsSet(fx, d, argv, now);
      var e, k := l.d.expires, argv[1];
      assert t != now ==> e[k := e[k] + (t - now)][k] != e[k];
      assert t == now ==> e[k := e[k] + (t - now)] == e;
    }
  }

  /** EXPIRE k 10 at time 0, translated one millisecond later. */
  lemma LateTranslation(fx: Effect, k: Bytes, v: Bytes)
    ensures var d, argv := Db(map[k := Str(v)], map[]), [EXPIRE, k, [49, 48]];
            var l := LiveExec(fx, d, argv, 0);
            && l.d.expires == map[k := 10000]
            && ExecDbAll(fx, d, TranslateAll(l.fed, 1)).expires == map[k := 10001]
  {
    hide ExecDb, Translate, TranslateAll, ExecDbAll, DecodeInt;
    MoreNames();
    TenIsANumber();
    var d, argv := Db(map[k := Str(v)], map[]), [EXPIRE, k, [49, 48]];
    assert Upper(EXPIRE) == EXPIRE;
    FeedReplays(fx, d, argv, 0, 1);
    assert LiveExec(fx, d, argv, 0) == LiveExpire(d, argv, 0);
    assert map[k := 10000][k := 10001] == map[k := 10001];
  }

  lemma SetKeySets(d: Db, argv: Argv, k: Bytes, v: Bytes, nx: bool, xx: bool, ttl: Option<int>, now: int)
    requires |argv| > 2 && ttl.Some?
    ensures var l := LiveSetKey(d, argv, k, v, nx, xx, ttl, now); Fed(l, argv) ==> k in l.d.expires
  {
  }

  lemma TtlIsSet(fx: Effect, d: Db, argv: Argv, now: int)
    requires SetsTtl(argv) && Fed(LiveExec(fx, d, argv, now), argv)
    ensures |argv| > 1 && argv[1] in LiveExec(fx, d, argv, now).d.expires
  {
    hide ExecDb, Upper, HasTtl, ParseSet, DecodeInt, LiveSetKey, LiveSet, LiveSetEx, LiveExpire;
    MoreNames();
    if IsExpire(argv) {
      ExpireSets(d, argv, now);
    } else if IsSetEx(argv) {
      SetExSets(d, argv, now);
    } else {
      TtlHasRoom(argv);
      SetSets(d, argv, now);
    }
  }

  lemma ExpireSets(d: Db, argv: Argv, now: int)
    requires IsExpire(argv)
    ensures var l := LiveExpire(d, argv, now); Fed(l, argv) ==> argv[1] in l.d.expires
  {
    hide Upper, DecodeInt;
  }

  lemma SetExSets(d: Db, argv: Argv, now: int)
    requires IsSetEx(argv)
    ensures var l := LiveSetEx(d, argv, now); Fed(l, argv) ==> argv[1] in l.d.expires
  {
    hide Upper, DecodeInt, LiveSetKey;
    if DecodeInt(argv[2]).Some? {
      SetKeySets(d, argv, argv[1], argv[3], false, false, Some(DecodeInt(argv[2]).value * Unit(argv)), now);
    }
  }

  lemma SetSets(d: Db, argv: Argv, now: int)
    requires |argv| > 3 && HasTtl(argv, 3)
    ensures var l := LiveSet(d, argv, now); Fed(l, argv) ==> argv[1] in l.d.expires
  {
    hide Upper, DecodeInt, LiveSetKey, ParseSet, HasTtl;
    var r := ParseSet(argv, 3, NO_ARGS);
    if r.Some? {
      ParsedKind(argv, 3, NO_ARGS);
      var SetArgs(nx, xx, ex, _, x) := r.value;
      if DecodeInt(x.value).Some? {
        SetKeySets(d, argv, argv[1], argv[2], nx, xx,
                   Some(DecodeInt(x.value).value * if ex then 1000 else 1), now);
      }
    }
  }

  // ---------- a run of commands ----------

  /** A client's command on its database or on several, or the removal of an expired key met on the way. */
  datatype Event =
    | Command(db: nat, argv: Argv, now: int)
    | Expire(db: nat, key: Bytes, now: int)
    | Wide(db: nat, argv: Argv, now: int)

  /** A client's SELECT, MULTI and EXEC are not fed as such (EXEC feeds a whole block, below), and a
      SET whose options clash stops the server. */
  predicate Feedable(ev: Event, n: nat) {
    && ev.db < n
    && (ev.Command? ==> Plain(ev.argv) && (Is(ev.argv, SET) && |ev.argv| >= 3 ==> !Clashes(ev.argv, 3)))
    && (ev.Wide? ==> Across(ev.argv))
  }

  /** What the event does to its database, if it acts on that alone, and what it feeds. */
  function LiveEvent(fx: Effect, d: Db, ev: Event): Live {
    match ev
    case Command(_, argv, now) => LiveExec(fx, d, argv, now)
    case Expire(_, key, now) => ExpireIfNeeded(d, key, now)
    case Wide(_, argv, _) => Live(d, [argv])
  }

  /** The SELECT written when the database differs from the last one; None stands for -1. */
  function SelectCmds(selected: Option<nat>, db: nat): seq<Argv> {
    if selected == Some(db) then [] else [[SELECT, EncodeInt(db)]]
  }

  /** Everything one event appends. */
  function EventCmds(fx: Effect, dbs: seq<Db>, selected: Option<nat>, ev: Event): seq<Argv>
    requires ev.db < |dbs|
  {
    var fed := LiveEvent(fx, dbs[ev.db], ev).fed;
    if fed == [] then [] else SelectCmds(selected, ev.db) + TranslateAll(fed, ev.now)
  }

  function EventSelects(fx: Effect, dbs: seq<Db>, selected: Option<nat>, ev: Event): Option<nat>
    requires ev.db < |dbs|
  {
    if LiveEvent(fx, dbs[ev.db], ev).fed == [] then selected else Some(ev.db)
  }

  function EventDbs(fx: Effect, dbs: seq<Db>, ev: Event): (r: seq<Db>)
    requires ev.db < |dbs|
    ensures |r| == |dbs|
  {
    if ev.Wide? then ExecAcross(fx, dbs, ev.db, ev.argv) else dbs[ev.db := LiveEvent(fx, dbs[ev.db], ev).d]
  }

  /** A replaying client is where the feed believes it is. */
  predicate InStep(s: Session, selected: Option<nat>) {
    Valid(s) && s.multi.None? && (selected.Some? ==> s.cur == selected.value)
  }

  lemma TranslatedPlain(argv: Argv, t: int)
    requires Plain(argv)
    ensures AllPlain(Translate(argv, t))
  {
    hide Upper, Scan, DecodeInt, EncodeInt;
    MoreNames();
    Names();
    assert PEXPIREAT[0] == 80 && SET[0] == 83 && |SET| == 3;
    assert Upper(SET) == SET && Upper(PEXPIREAT) == PEXPIREAT;
    assert |argv| > 3 ==> argv[..3][0] == argv[0];
  }

  lemma {:induction false} AllTranslatedPlain(fed: seq<Argv>, t: int)
    requires AllPlain(fed)
    ensures AllPlain(TranslateAll(fed, t))
  {
    hide Plain, Translate;
    if fed != [] {
      TranslatedPlain(fed[0], t);
      AllTranslatedPlain(fed[1..], t);
    }
  }

  lemma FedPlain(fx: Effect, d: Db, ev: Event)
    requires (ev.Command? ==> Plain(ev.argv)) && !ev.Wide?
    ensures AllPlain(LiveEvent(fx, d, ev).fed)
  {
    hide ExecDb, Upper, HasTtl, Clashes, ParseSet, DecodeInt;
    MoreNames();
    Names();
    assert DEL[0] == 68 && SELECT[0] == 83 && MULTI[0] == 77 && EXEC[0] == 69;
    var k := if ev.Command? && |ev.argv| > 1 then ev.argv[1] else if ev.Expire? then ev.key else [];
    assert Plain([DEL, k]);
  }

  lemma EventReplays(fx: Effect, d: Db, ev: Event)
    requires !ev.Wide? && (ev.Command? && Is(ev.argv, SET) && |ev.argv| >= 3 ==> !Clashes(ev.argv, 3))
    ensures var l := LiveEvent(fx, d, ev); ExecDbAll(fx, d, TranslateAll(l.fed, ev.now)) == l.d
  {
    hide ExecDb, Translate, TranslateAll, ExecDbAll, HasTtl, Clashes, LiveExec;
    match ev {
      case Command(_, argv, now) => FeedIsExact(fx, d, argv, now, now);
      case Expire(_, key, now) => ExpiredReplays(fx, d, key, now, now);
    }
  }

  /** A command on several databases is fed as it is. */
  lemma WideTranslated(argv: Argv, t: int)
    requires Across(argv)
    ensures TranslateAll([argv], t) == [argv] && Straight(argv) && !(Is(argv, SELECT) && |argv| == 2)
  {
    MoreNames();
    Names();
    var cmds := [argv];
    assert cmds[1..] == [];
    assert Translate(argv, t) == [argv];
    assert TranslateAll(cmds, t) == [argv] + [];
  }

  lemma WideRuns(fx: Effect, s: Session, selected: Option<nat>, ev: Event)
    requires InStep(s, selected) && ev.Wide? && Feedable(ev, |s.dbs|)
    ensures var r := RunAll(fx, s, EventCmds(fx, s.dbs, selected, ev));
            r.dbs == EventDbs(fx, s.dbs, ev) && InStep(r, EventSelects(fx, s.dbs, selected, ev))
  {
    hide TranslateAll, Is, ExecAcross, RunAll, EncodeInt;
    WideTranslated(ev.argv, ev.now);
    var sel := SelectCmds(selected, ev.db);
    RunAllAppend(fx, s, sel, [ev.argv]);
    SelectsRun(fx, s, selected, ev.db);
    RunOne(fx, s.(cur := ev.db), ev.argv);
  }

  /** A client replaying what an event has fed ends with the live databases, and still in step. */
  lemma EventRuns(fx: Effect, s: Session, selected: Option<nat>, ev: Event)
    requires InStep(s, selected) && Feedable(ev, |s.dbs|)
    ensures var r := RunAll(fx, s, EventCmds(fx, s.dbs, selected, ev));
            r.dbs == EventDbs(fx, s.dbs, ev) && InStep(r, EventSelects(fx, s.dbs, selected, ev))
  {
    hide ExecDb, Translate, TranslateAll, ExecDbAll, HasTtl, Clashes, LiveExec, Run, Plain, ExpireIfNeeded, Across,
         ExecAcross;
    if ev.Wide? {
      WideRuns(fx, s, selected, ev);
      return;
    }
    var d := s.dbs[ev.db];
    var l := LiveEvent(fx, d, ev);
    var cmds := TranslateAll(l.fed, ev.now);
    EventReplays(fx, d, ev);
    if l.fed == [] {
      NothingFed(fx, d, ev.now);
      assert s.dbs[ev.db := d] == s.dbs;
    } else {
      FedPlain(fx, d, ev);
      AllTranslatedPlain(l.fed, ev.now);
      RunAllAppend(fx, s, SelectCmds(selected, ev.db), cmds);
      if selected != Some(ev.db) { SelectRun(fx, s, ev.db); }
      assert RunAll(fx, s, SelectCmds(selected, ev.db)) == s.(cur := ev.db);
      RunPlain(fx, s.(cur := ev.db), cmds);
    }
  }

  // ---------- transactions ----------

  predicate AllFeedable(evs: seq<Event>, n: nat) { forall i | 0 <= i < |evs| :: Feedable(evs[i], n) }

  /** What several events append, one after the other. */
  function EventsCmds(fx: Effect, dbs: seq<Db>, selected: Option<nat>, evs: seq<Event>): seq<Argv>
    requires AllFeedable(evs, |dbs|)
    decreases |evs|
  {
    if evs == [] then []
    else
      EventCmds(fx, dbs, selected, evs[0])
      + EventsCmds(fx, EventDbs(fx, dbs, evs[0]), EventSelects(fx, dbs, selected, evs[0]), evs[1..])
  }

  function EventsSelects(fx: Effect, dbs: seq<Db>, selected: Option<nat>, evs: seq<Event>): Option<nat>
    requires AllFeedable(evs, |dbs|)
    decreases |evs|
  {
    if evs == [] then selected
    else EventsSelects(fx, EventDbs(fx, dbs, evs[0]), EventSelects(fx, dbs, selected, evs[0]), evs[1..])
  }

  function EventsDbs(fx: Effect, dbs: seq<Db>, evs: seq<Event>): (r: seq<Db>)
    requires AllFeedable(evs, |dbs|)
    ensures |r| == |dbs|
    decreases |evs|
  {
    if evs == [] then dbs else EventsDbs(fx, EventDbs(fx, dbs, evs[0]), evs[1..])
  }

  /** What reaches the file as a unit: one event, or a transaction.  execCommand feeds MULTI before the
      first command that may write, in the database the client has selected there, and EXEC in the
      one selected at the end; what expired before that first command are events of their own. */
  datatype Work =
    | Single(ev: Event)
    | Transaction(db: nat, body: seq<Event>, execDb: nat)

  predicate FeedableWork(w: Work, n: nat) {
    match w
    case Single(ev) => Feedable(ev, n)
    case Transaction(db, body, execDb) => db < n && execDb < n && AllFeedable(body, n)
  }

  /** The block between MULTI and EXEC, with every SELECT that falls into it. */
  function Block(fx: Effect, dbs: seq<Db>, w: Work): seq<Argv>
    requires w.Transaction? && FeedableWork(w, |dbs|)
  {
    EventsCmds(fx, dbs, Some(w.db), w.body) + SelectCmds(EventsSelects(fx, dbs, Some(w.db), w.body), w.execDb)
  }

  function WorkCmds(fx: Effect, dbs: seq<Db>, selected: Option<nat>, w: Work): seq<Argv>
    requires FeedableWork(w, |dbs|)
  {
    match w
    case Single(ev) => EventCmds(fx, dbs, selected, ev)
    case Transaction(db, _, _) => SelectCmds(selected, db) + [[MULTI]] + Block(fx, dbs, w) + [[EXEC]]
  }

  function WorkSelects(fx: Effect, dbs: seq<Db>, selected: Option<nat>, w: Work): Option<nat>
    requires FeedableWork(w, |dbs|)
  {
    match w
    case Single(ev) => EventSelects(fx, dbs, selected, ev)
    case Transaction(_, _, execDb) => Some(execDb)
  }

  function WorkDbs(fx: Effect, dbs: seq<Db>, w: Work): (r: seq<Db>)
    requires FeedableWork(w, |dbs|)
    ensures |r| == |dbs|
  {
    match w
    case Single(ev) => EventDbs(fx, dbs, ev)
    case Transaction(_, body, _) => EventsDbs(fx, dbs, body)
  }

  lemma {:induction false} EventsRun(fx: Effect, s: Session, selected: Option<nat>, evs: seq<Event>)
    requires InStep(s, selected) && AllFeedable(evs, |s.dbs|)
    ensures var r := RunAll(fx, s, EventsCmds(fx, s.dbs, selected, evs));
            r.dbs == EventsDbs(fx, s.dbs, evs) && InStep(r, EventsSelects(fx, s.dbs, selected, evs))
    decreases |evs|
  {
    hide Run, EventCmds, EventSelects, EventDbs, Plain, Clashes, Is, RunAll;
    if evs == [] {
      RunNothing(fx, s);
    } else {
      var ev := evs[0];
      var first := EventCmds(fx, s.dbs, selected, ev);
      EventRuns(fx, s, selected, ev);
      var r := RunAll(fx, s, first);
      var selected' := EventSelects(fx, s.dbs, selected, ev);
      EventsRun(fx, r, selected', evs[1..]);
      RunAllAppend(fx, s, first, EventsCmds(fx, r.dbs, selected', evs[1..]));
    }
  }

  lemma RunNothing(fx: Effect, s: Session)
    requires Valid(s)
    ensures RunAll(fx, s, []) == s
  {
  }

  // Inside a transaction commands are queued, and EXEC runs them as if there had been none.

  predicate Straight(argv: Argv) { !Is(argv, MULTI) && !Is(argv, EXEC) }

  predicate AllStraight(cmds: seq<Argv>) { forall i | 0 <= i < |cmds| :: Straight(cmds[i]) }

  lemma {:induction false} StraightRun(fx: Effect, s: Session, cmds: seq<Argv>)
    requires Valid(s) && s.multi.None? && AllStraight(cmds)
    ensures RunAll(fx, s, cmds) == ExecAll(fx, s, cmds)
    decreases |cmds|
  {
    hide Exec, Is;
    if cmds != [] {
      assert Straight(cmds[0]);
      StraightRun(fx, Exec(fx, s, cmds[0]), cmds[1..]);
    }
  }

  lemma {:induction false} Queueing(fx: Effect, s: Session, cmds: seq<Argv>)
    requires Valid(s) && s.multi.Some? && AllStraight(cmds)
    ensures RunAll(fx, s, cmds) == s.(multi := Some(s.multi.value + cmds))
    decreases |cmds|
  {
    hide Is;
    if cmds == [] {
      assert s.multi.value + cmds == s.multi.value;
    } else {
      assert Straight(cmds[0]);
      Queueing(fx, s.(multi := Some(s.multi.value + [cmds[0]])), cmds[1..]);
      assert s.multi.value + [cmds[0]] + cmds[1..] == s.multi.value + cmds;
    }
  }

  lemma RunOne(fx: Effect, s: Session, cmd: Argv)
    requires Valid(s)
    ensures RunAll(fx, s, [cmd]) == Run(fx, s, cmd)
  {
    hide Run;
    var cmds := [cmd];
    assert cmds[1..] == [];
  }

  lemma OpenAndClose(fx: Effect, s: Session)
    requires Valid(s)
    ensures s.multi.None? ==> Run(fx, s, [MULTI]) == s.(multi := Some([]))
    ensures s.multi.Some? ==> Run(fx, s, [EXEC]) == ExecAll(fx, s.(multi := None), s.multi.value)
  {
    Names();
    assert Upper(MULTI) == MULTI && Upper(EXEC) == EXEC;
    var open, close := [MULTI], [EXEC];
    assert open[0] == MULTI && close[0] == EXEC;
    assert MULTI != EXEC;
  }

  /** A transaction does what its commands do. */
  lemma TransactionRun(fx: Effect, s: Session, cmds: seq<Argv>)
    requires Valid(s) && s.multi.None? && AllStraight(cmds)
    ensures RunAll(fx, s, [[MULTI]] + cmds + [[EXEC]]) == RunAll(fx, s, cmds)
  {
    hide Run, RunAll, ExecAll, AllStraight;
    RunAllAppend(fx, s, [[MULTI]] + cmds, [[EXEC]]);
    RunAllAppend(fx, s, [[MULTI]], cmds);
    RunOne(fx, s, [MULTI]);
    OpenAndClose(fx, s);
    var open := s.(multi := Some([]));
    Queueing(fx, open, cmds);
    assert [] + cmds == cmds;
    RunOne(fx, s.(multi := Some(cmds)), [EXEC]);
    OpenAndClose(fx, s.(multi := Some(cmds)));
    assert s.(multi := Some(cmds)).(multi := None) == s;
    StraightRun(fx, s, cmds);
  }

  /** Cut anywhere before its EXEC, it has done nothing. */
  lemma CutTransaction(fx: Effect, s: Session, cmds: seq<Argv>, k: nat)
    requires Valid(s) && s.multi.None? && AllStraight(cmds) && k <= |cmds|
    ensures RunAll(fx, s, [[MULTI]] + cmds[..k]) == s.(multi := Some(cmds[..k]))
  {
    hide Run, RunAll, ExecAll;
    RunAllAppend(fx, s, [[MULTI]], cmds[..k]);
    RunOne(fx, s, [MULTI]);
    OpenAndClose(fx, s);
    Queueing(fx, s.(multi := Some([])), cmds[..k]);
    assert [] + cmds[..k] == cmds[..k];
  }

  lemma SelectStraight(db: nat)
    ensures Straight([SELECT, EncodeInt(db)])
  {
    hide EncodeInt;
    Names();
    var cmd := [SELECT, EncodeInt(db)];
    assert cmd[0] == SELECT && Upper(SELECT) == SELECT;
    assert SELECT[0] == 83 && MULTI[0] == 77 && EXEC[0] == 69;
  }

  lemma WideIsStraight(fx: Effect, dbs: seq<Db>, selected: Option<nat>, ev: Event)
    requires ev.Wide? && Feedable(ev, |dbs|)
    ensures AllStraight(EventCmds(fx, dbs, selected, ev))
  {
    hide Is, EncodeInt, TranslateAll, Across;
    SelectStraight(ev.db);
    WideTranslated(ev.argv, ev.now);
  }

  lemma EventStraight(fx: Effect, dbs: seq<Db>, selected: Option<nat>, ev: Event)
    requires Feedable(ev, |dbs|)
    ensures AllStraight(EventCmds(fx, dbs, selected, ev))
  {
    hide Upper, Is, LiveEvent, TranslateAll, EncodeInt;
    SelectStraight(ev.db);
    if ev.Wide? {
      WideIsStraight(fx, dbs, selected, ev);
      return;
    }
    var l := LiveEvent(fx, dbs[ev.db], ev);
    FedPlain(fx, dbs[ev.db], ev);
    AllTranslatedPlain(l.fed, ev.now);
    var cmds := TranslateAll(l.fed, ev.now);
    forall i | 0 <= i < |cmds| ensures Straight(cmds[i]) { assert Plain(cmds[i]); }
  }

  lemma {:induction false} EventsStraight(fx: Effect, dbs: seq<Db>, selected: Option<nat>, evs: seq<Event>)
    requires AllFeedable(evs, |dbs|)
    ensures AllStraight(EventsCmds(fx, dbs, selected, evs))
    decreases |evs|
  {
    hide Straight, EventCmds, EventSelects, EventDbs, Plain, Clashes, Is;
    if evs != [] {
      EventStraight(fx, dbs, selected, evs[0]);
      EventsStraight(fx, EventDbs(fx, dbs, evs[0]), EventSelects(fx, dbs, selected, evs[0]), evs[1..]);
    }
  }

  lemma BlockStraight(fx: Effect, dbs: seq<Db>, w: Work)
    requires w.Transaction? && FeedableWork(w, |dbs|)
    ensures AllStraight(Block(fx, dbs, w))
  {
    hide Straight, EventsCmds, EventsSelects, EncodeInt;
    EventsStraight(fx, dbs, Some(w.db), w.body);
    SelectStraight(w.execDb);
  }

  lemma SelectsRun(fx: Effect, s: Session, selected: Option<nat>, db: nat)
    requires InStep(s, selected) && db < |s.dbs|
    ensures RunAll(fx, s, SelectCmds(selected, db)) == s.(cur := db)
  {
    hide Run, EncodeInt;
    if selected != Some(db) { SelectRun(fx, s, db); }
  }

  lemma BlockRuns(fx: Effect, s: Session, w: Work)
    requires w.Transaction? && FeedableWork(w, |s.dbs|) && InStep(s, Some(w.db))
    ensures var r := RunAll(fx, s, Block(fx, s.dbs, w));
            r.dbs == WorkDbs(fx, s.dbs, w) && InStep(r, Some(w.execDb))
  {
    hide RunAll, EventsCmds, EventsSelects, EventsDbs, AllFeedable, SelectCmds;
    EventsRun(fx, s, Some(w.db), w.body);
    var cmds := EventsCmds(fx, s.dbs, Some(w.db), w.body);
    var selected := EventsSelects(fx, s.dbs, Some(w.db), w.body);
    RunAllAppend(fx, s, cmds, SelectCmds(selected, w.execDb));
    SelectsRun(fx, RunAll(fx, s, cmds), selected, w.execDb);
  }

  /** A client replaying what a piece of work has fed ends with the live databases, outside any
      transaction, and still in step. */
  lemma WorkRuns(fx: Effect, s: Session, selected: Option<nat>, w: Work)
    requires InStep(s, selected) && FeedableWork(w, |s.dbs|)
    ensures var r := RunAll(fx, s, WorkCmds(fx, s.dbs, selected, w));
            r.dbs == WorkDbs(fx, s.dbs, w) && InStep(r, WorkSelects(fx, s.dbs, selected, w))
  {
    hide RunAll, EventCmds, EventDbs, EventSelects, Block, Feedable, AllFeedable, SelectCmds, AllStraight;
    match w {
      case Single(ev) => EventRuns(fx, s, selected, ev);
      case Transaction(db, body, execDb) =>
        var sel, block := SelectCmds(selected, db), Block(fx, s.dbs, w);
        assert WorkCmds(fx, s.dbs, selected, w) == sel + ([[MULTI]] + block + [[EXEC]]);
        RunAllAppend(fx, s, sel, [[MULTI]] + block + [[EXEC]]);
        SelectsRun(fx, s, selected, db);
        BlockStraight(fx, s.dbs, w);
        TransactionRun(fx, s.(cur := db), block);
        BlockRuns(fx, s.(cur := db), w);
    }
  }
}
