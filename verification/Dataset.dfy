/** Databases, and what the commands found in an append-only file do to them while loading. */
module Dataset {
  import opened Common
  import opened Resp

  /** Scores are kept as their printed text. */
  datatype Val =
    | Str(s: Bytes)
    | List(xs: seq<Bytes>)
    | Set(m: set<Bytes>)
    | ZSet(z: map<Bytes, Bytes>)
    | Hash(h: map<Bytes, Bytes>)

  /** The main dictionary and the expires dictionary: absolute deadlines in milliseconds. */
  datatype Db = Db(dict: map<Bytes, Val>, expires: map<Bytes, int>)

  const EMPTY_DB := Db(map[], map[])

  /** All databases, the one the client has selected, and the queue of an open MULTI. */
  datatype Session = Session(dbs: seq<Db>, cur: nat, multi: Option<seq<Argv>>)

  predicate Valid(s: Session) { s.cur < |s.dbs| }

  /** The effect of every command without a rule below: any function of its database, and for the commands
      that act on several, of all databases and the selected one.  It does not read the clock. */
  datatype Effect = Effect(one: (Argv, Db) -> Db, across: (Argv, seq<Db>, nat) -> seq<Db>)

  const SELECT: Bytes := [83, 69, 76, 69, 67, 84]
  const SET: Bytes := [83, 69, 84]
  const DEL: Bytes := [68, 69, 76]
  const UNLINK: Bytes := [85, 78, 76, 73, 78, 75]
  const RPUSH: Bytes := [82, 80, 85, 83, 72]
  const SADD: Bytes := [83, 65, 68, 68]
  const ZADD: Bytes := [90, 65, 68, 68]
  const HMSET: Bytes := [72, 77, 83, 69, 84]
  const PEXPIREAT: Bytes := [80, 69, 88, 80, 73, 82, 69, 65, 84]
  const EXPIRE: Bytes := [69, 88, 80, 73, 82, 69]
  const PEXPIRE: Bytes := [80, 69, 88, 80, 73, 82, 69]
  const EXPIREAT: Bytes := [69, 88, 80, 73, 82, 69, 65, 84]
  const SETEX: Bytes := [83, 69, 84, 69, 88]
  const PSETEX: Bytes := [80, 83, 69, 84, 69, 88]
  const MULTI: Bytes := [77, 85, 76, 84, 73]
  const EXEC: Bytes := [69, 88, 69, 67]
  const MOVE: Bytes := [77, 79, 86, 69]
  const SWAPDB: Bytes := [83, 87, 65, 80, 68, 66]
  const FLUSHALL: Bytes := [70, 76, 85, 83, 72, 65, 76, 76]
  const NX: Bytes := [78, 88]
  const XX: Bytes := [88, 88]
  const EX: Bytes := [69, 88]
  const PX: Bytes := [80, 88]

  // ---------- signed decimal numbers ----------

  const MINUS: Byte := 45

  function EncodeInt(i: int): Bytes { if i >= 0 then Digits(i) else [MINUS] + Digits(-i) }

  /** string2ll: only the canonical text of a number is accepted. */
  function DecodeInt(s: Bytes): Option<int> {
    if s != [] && s[0] == MINUS then
      var n: int := Value(s[1..], 0);
      if n != 0 && s[1..] == Digits(n) then Some(-n) else None
    else
      var n := Value(s, 0);
      if s == Digits(n) then Some(n) else None
  }

  lemma IntRoundTrip(i: int)
    ensures DecodeInt(EncodeInt(i)) == Some(i)
  {
    if i >= 0 {
      ValueOfDigits(i);
      assert IsDigit(Digits(i)[0]);
    } else {
      ValueOfDigits(-i);
      assert EncodeInt(i)[1..] == Digits(-i);
    }
  }

  // ---------- commands ----------

  function UpperByte(b: Byte): Byte { if 97 <= b <= 122 then b - 32 else b }

  /** Command and option names are compared without case. */
  function Upper(s: Bytes): (r: Bytes)
    ensures |r| == |s| && forall i | 0 <= i < |s| :: r[i] == UpperByte(s[i])
  {
    seq(|s|, i requires 0 <= i < |s| => UpperByte(s[i]))
  }

  predicate Is(argv: Argv, name: Bytes) { argv != [] && Upper(argv[0]) == name }

  function SetStr(d: Db, k: Bytes, v: Bytes): Db { Db(d.dict[k := Str(v)], d.expires - {k}) }

  function Delete(d: Db, keys: set<Bytes>): Db { Db(d.dict - keys, d.expires - keys) }

  function Keys(args: Argv): set<Bytes> { set i | 0 <= i < |args| :: args[i] }

  function Push(d: Db, k: Bytes, xs: seq<Bytes>): Db {
    if k !in d.dict then d.(dict := d.dict[k := List(xs)])
    else if d.dict[k].List? then d.(dict := d.dict[k := List(d.dict[k].xs + xs)])
    else d
  }

  function AddMembers(d: Db, k: Bytes, xs: seq<Bytes>): Db {
    if k !in d.dict then d.(dict := d.dict[k := Set(Keys(xs))])
    else if d.dict[k].Set? then d.(dict := d.dict[k := Set(d.dict[k].m + Keys(xs))])
    else d
  }

  /** The pairs (a, b) of a flat argument list, in order. */
  function PutPairs(m: map<Bytes, Bytes>, args: Argv, keyFirst: bool): map<Bytes, Bytes>
    decreases |args|
  {
    if |args| < 2 then m
    else PutPairs(if keyFirst then m[args[0] := args[1]] else m[args[1] := args[0]], args[2..], keyFirst)
  }

  function AddScores(d: Db, k: Bytes, args: Argv): Db {
    if k !in d.dict then d.(dict := d.dict[k := ZSet(PutPairs(map[], args, false))])
    else if d.dict[k].ZSet? then d.(dict := d.dict[k := ZSet(PutPairs(d.dict[k].z, args, false))])
    else d
  }

  function PutFields(d: Db, k: Bytes, args: Argv): Db {
    if k !in d.dict then d.(dict := d.dict[k := Hash(PutPairs(map[], args, true))])
    else if d.dict[k].Hash? then d.(dict := d.dict[k := Hash(PutPairs(d.dict[k].h, args, true))])
    else d
  }

  /** While loading, a deadline in the past is stored like any other: nothing is deleted. */
  function SetDeadline(d: Db, k: Bytes, t: Option<int>): Db {
    if k in d.dict && t.Some? then d.(expires := d.expires[k := t.value]) else d
  }

  function ExecDb(fx: Effect, d: Db, argv: Argv): Db {
    if Is(argv, SET) && |argv| == 3 then SetStr(d, argv[1], argv[2])
    else if (Is(argv, DEL) || Is(argv, UNLINK)) && |argv| >= 2 then Delete(d, Keys(argv[1..]))
    else if Is(argv, RPUSH) && |argv| >= 3 then Push(d, argv[1], argv[2..])
    else if Is(argv, SADD) && |argv| >= 3 then AddMembers(d, argv[1], argv[2..])
    else if Is(argv, ZADD) && |argv| >= 4 && |argv| % 2 == 0 then AddScores(d, argv[1], argv[2..])
    else if Is(argv, HMSET) && |argv| >= 4 && |argv| % 2 == 0 then PutFields(d, argv[1], argv[2..])
    else if Is(argv, PEXPIREAT) && |argv| == 3 then SetDeadline(d, argv[1], DecodeInt(argv[2]))
    else fx.one(argv, d)
  }

  /** The commands that act on more than the selected database. */
  predicate Across(argv: Argv) { Is(argv, MOVE) || Is(argv, SWAPDB) || Is(argv, FLUSHALL) }

  /** No command changes the number of databases. */
  function ExecAcross(fx: Effect, dbs: seq<Db>, cur: nat, argv: Argv): (r: seq<Db>)
    ensures |r| == |dbs|
  {
    var r := fx.across(argv, dbs, cur);
    if |r| == |dbs| then r else dbs
  }

  function Exec(fx: Effect, s: Session, argv: Argv): (r: Session)
    requires Valid(s)
    ensures Valid(r) && r.multi == s.multi && |r.dbs| == |s.dbs|
  {
    if Is(argv, SELECT) && |argv| == 2 then
      var i := DecodeInt(argv[1]);
      if i.Some? && 0 <= i.value < |s.dbs| then s.(cur := i.value) else s
    else if Across(argv) then s.(dbs := ExecAcross(fx, s.dbs, s.cur, argv))
    else s.(dbs := s.dbs[s.cur := ExecDb(fx, s.dbs[s.cur], argv)])
  }

  function ExecAll(fx: Effect, s: Session, cmds: seq<Argv>): (r: Session)
    requires Valid(s)
    ensures Valid(r) && r.multi == s.multi && |r.dbs| == |s.dbs|
    decreases |cmds|
  {
    if cmds == [] then s else ExecAll(fx, Exec(fx, s, cmds[0]), cmds[1..])
  }

  lemma {:induction false} ExecAllAppend(fx: Effect, s: Session, a: seq<Argv>, b: seq<Argv>)
    requires Valid(s)
    ensures ExecAll(fx, s, a + b) == ExecAll(fx, ExecAll(fx, s, a), b)
    decreases |a|
  {
    if a == [] {
      assert a + b == b;
    } else {
      assert (a + b)[1..] == a[1..] + b;
      ExecAllAppend(fx, Exec(fx, s, a[0]), a[1..], b);
    }
  }

  /** One command of the file, given to the loader's client: queued inside a transaction. */
  function Run(fx: Effect, s: Session, argv: Argv): (r: Session)
    requires Valid(s)
    ensures Valid(r) && |r.dbs| == |s.dbs|
  {
    if s.multi.Some? then
      if Is(argv, EXEC) then ExecAll(fx, s.(multi := None), s.multi.value)
      else s.(multi := Some(s.multi.value + [argv]))
    else if Is(argv, MULTI) then s.(multi := Some([]))
    else if Is(argv, EXEC) then s
    else Exec(fx, s, argv)
  }

  function RunAll(fx: Effect, s: Session, cmds: seq<Argv>): (r: Session)
    requires Valid(s)
    ensures Valid(r) && |r.dbs| == |s.dbs|
    decreases |cmds|
  {
    if cmds == [] then s else RunAll(fx, Run(fx, s, cmds[0]), cmds[1..])
  }

  lemma {:induction false} RunAllAppend(fx: Effect, s: Session, a: seq<Argv>, b: seq<Argv>)
    requires Valid(s)
    ensures RunAll(fx, s, a + b) == RunAll(fx, RunAll(fx, s, a), b)
    decreases |a|
  {
    if a == [] {
      assert a + b == b;
    } else {
      assert (a + b)[1..] == a[1..] + b;
      RunAllAppend(fx, Run(fx, s, a[0]), a[1..], b);
    }
  }
}
