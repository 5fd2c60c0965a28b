/** Rewriting the append-only file: from the databases to a short log that rebuilds them.

    A database is given as its dictionaries iterate: entries in any order, and inside a set, sorted
    set or hash the elements in any order. */
module AofRewrite {
  import opened Common
  import opened Resp
  import opened Dataset

  const ITEMS_PER_CMD: nat := 64

  /** Scores come before members in OZSet's commands; a pair is (member, score) or (field, value). */
  datatype Obj =
    | OStr(s: Bytes)
    | OList(xs: seq<Bytes>)
    | OSet(xs: seq<Bytes>)
    | OZSet(ps: seq<(Bytes, Bytes)>)
    | OHash(ps: seq<(Bytes, Bytes)>)

  datatype Entry = Entry(key: Bytes, obj: Obj, expire: Option<int>)

  type Image = seq<Entry>

  // ---------- what an image stands for ----------

  ghost predicate DistinctKeys(ps: seq<(Bytes, Bytes)>) {
    forall i, j | 0 <= i < j < |ps| :: ps[i].0 != ps[j].0
  }

  ghost predicate ValidObj(o: Obj) {
    (o.OZSet? || o.OHash?) ==> DistinctKeys(o.ps)
  }

  ghost function PairMap(ps: seq<(Bytes, Bytes)>): map<Bytes, Bytes>
    requires DistinctKeys(ps)
  {
    map i | 0 <= i < |ps| :: ps[i].0 := ps[i].1
  }

  ghost function ValOf(o: Obj): Val
    requires ValidObj(o)
  {
    match o
    case OStr(s) => Str(s)
    case OList(xs) => List(xs)
    case OSet(xs) => Set(set x | x in xs)
    case OZSet(ps) => ZSet(PairMap(ps))
    case OHash(ps) => Hash(PairMap(ps))
  }

  ghost predicate ValidImage(img: Image) {
    && (forall i | 0 <= i < |img| :: ValidObj(img[i].obj))
    && (forall i, j | 0 <= i < j < |img| :: img[i].key != img[j].key)
  }

  ghost function DbOf(img: Image): (d: Db)
    requires ValidImage(img)
    ensures d.dict.Keys == set i | 0 <= i < |img| :: img[i].key
    ensures d.expires.Keys <= d.dict.Keys
  {
    if img == [] then EMPTY_DB
    else
      var n := |img| - 1;
      var d := DbOf(img[..n]);
      assert forall i | 0 <= i < n :: img[..n][i] == img[i];
      Db(d.dict[img[n].key := ValOf(img[n].obj)],
         if img[n].expire.Some? then d.expires[img[n].key := img[n].expire.value] else d.expires)
  }

  // ---------- the commands ----------

  function Flat(items: seq<Argv>): Argv {
    if items == [] then [] else items[0] + Flat(items[1..])
  }

  function Min(a: nat, b: nat): nat { if a < b then a else b }

  /** At most ITEMS_PER_CMD items per command. */
  function ChunkCmds(name: Bytes, key: Bytes, items: seq<Argv>): seq<Argv>
    decreases |items|
  {
    if items == [] then []
    else
      var n := Min(ITEMS_PER_CMD, |items|);
      [[name, key] + Flat(items[..n])] + ChunkCmds(name, key, items[n..])
  }

  function Singles(xs: seq<Bytes>): seq<Argv> { seq(|xs|, i requires 0 <= i < |xs| => [xs[i]]) }

  function Scored(ps: seq<(Bytes, Bytes)>): seq<Argv> {
    seq(|ps|, i requires 0 <= i < |ps| => [ps[i].1, ps[i].0])
  }

  function Fields(ps: seq<(Bytes, Bytes)>): seq<Argv> {
    seq(|ps|, i requires 0 <= i < |ps| => [ps[i].0, ps[i].1])
  }

  function ValueCmds(key: Bytes, o: Obj): seq<Argv> {
    match o
    case OStr(s) => [[SET, key, s]]
    case OList(xs) => ChunkCmds(RPUSH, key, Singles(xs))
    case OSet(xs) => ChunkCmds(SADD, key, Singles(xs))
    case OZSet(ps) => ChunkCmds(ZADD, key, Scored(ps))
    case OHash(ps) => ChunkCmds(HMSET, key, Fields(ps))
  }

  /** getExpire: -1 stands for no deadline. */
  function ExpireTime(e: Entry): int { if e.expire.Some? then e.expire.value else -1 }

  function EntryCmds(e: Entry): seq<Argv> {
    ValueCmds(e.key, e.obj)
    + if ExpireTime(e) != -1 then [[PEXPIREAT, e.key, EncodeInt(ExpireTime(e))]] else []
  }

  function ImageCmds(img: Image): seq<Argv> {
    if img == [] then [] else ImageCmds(img[..|img| - 1]) + EntryCmds(img[|img| - 1])
  }

  function DbCmds(j: nat, img: Image): seq<Argv> {
    if img == [] then [] else [[SELECT, EncodeInt(j)]] + ImageCmds(img)
  }

  function RewriteCmds(imgs: seq<Image>): seq<Argv> {
    if imgs == [] then [] else RewriteCmds(imgs[..|imgs| - 1]) + DbCmds(|imgs| - 1, imgs[|imgs| - 1])
  }

  // ---------- a chunked command does what one big command does ----------

  lemma {:induction false} FlatAppend(a: seq<Argv>, b: seq<Argv>)
    ensures Flat(a + b) == Flat(a) + Flat(b)
  {
    if a == [] {
      assert a + b == b;
    } else {
      assert (a + b)[1..] == a[1..] + b;
      FlatAppend(a[1..], b);
    }
  }

  lemma {:induction false} PutPairsAppend(m: map<Bytes, Bytes>, a: Argv, b: Argv, keyFirst: bool)
    requires |a| % 2 == 0
    ensures PutPairs(m, a + b, keyFirst) == PutPairs(PutPairs(m, a, keyFirst), b, keyFirst)
    decreases |a|
  {
    if a == [] {
      assert a + b == b;
    } else {
      assert (a + b)[2..] == a[2..] + b && (a + b)[0] == a[0] && (a + b)[1] == a[1];
      PutPairsAppend(if keyFirst then m[a[0] := a[1]] else m[a[1] := a[0]], a[2..], b, keyFirst);
    }
  }

  predicate Variadic(name: Bytes) { name == RPUSH || name == SADD || name == ZADD || name == HMSET }

  function Width(name: Bytes): nat { if name == RPUSH || name == SADD then 1 else 2 }

  lemma Names()
    ensures Upper(SELECT) == SELECT && Upper(SET) == SET && Upper(RPUSH) == RPUSH && Upper(SADD) == SADD
    ensures Upper(ZADD) == ZADD && Upper(HMSET) == HMSET && Upper(PEXPIREAT) == PEXPIREAT
    ensures |SELECT| == 6 && |SET| == 3 && |DEL| == 3 && |UNLINK| == 6 && |RPUSH| == 5 && |SADD| == 4
    ensures |ZADD| == 4 && |HMSET| == 5 && |PEXPIREAT| == 9 && |MULTI| == 5 && |EXEC| == 4
    ensures SADD[0] != ZADD[0] && SADD[0] != EXEC[0] && ZADD[0] != EXEC[0] && RPUSH[0] != HMSET[0]
    ensures RPUSH[0] != MULTI[0] && HMSET[0] != MULTI[0] && SELECT[0] != UNLINK[0] && SET[0] != DEL[0]
    ensures |MOVE| == 4 && |SWAPDB| == 6 && |FLUSHALL| == 8 && SADD[0] != MOVE[0] && ZADD[0] != MOVE[0]
    ensures MOVE[0] != EXEC[0] && SELECT[1] != SWAPDB[1]
  {
  }

  /** The effect of a variadic command, free of the command dispatch. */
  function Grow(name: Bytes, d: Db, key: Bytes, args: Argv): Db
    requires Variadic(name)
  {
    if name == RPUSH then Push(d, key, args)
    else if name == SADD then AddMembers(d, key, args)
    else if name == ZADD then AddScores(d, key, args)
    else PutFields(d, key, args)
  }

  lemma GrowIsExec(fx: Effect, name: Bytes, d: Db, key: Bytes, args: Argv)
    requires Variadic(name) && args != [] && |args| % Width(name) == 0
    ensures ExecDb(fx, d, [name, key] + args) == Grow(name, d, key, args)
  {
    Names();
    var argv := [name, key] + args;
    assert argv[0] == name && argv[1] == key && argv[2..] == args;
  }

  lemma UpdateTwice<K, V>(m: map<K, V>, k: K, a: V, b: V)
    ensures m[k := a][k := b] == m[k := b]
  {
  }

  lemma KeysAppend(a: Argv, b: Argv)
    ensures Keys(a + b) == Keys(a) + Keys(b)
  {
    forall x | x in Keys(a) + Keys(b) ensures x in Keys(a + b) {
      if x in Keys(a) {
        var i :| 0 <= i < |a| && a[i] == x;
        assert (a + b)[i] == x;
      } else {
        var i :| 0 <= i < |b| && b[i] == x;
        assert (a + b)[|a| + i] == x;
      }
    }
  }

  lemma PushAppend(d: Db, key: Bytes, a: Argv, b: Argv)
    ensures Push(Push(d, key, a), key, b) == Push(d, key, a + b)
  {
    var xs := if key in d.dict && d.dict[key].List? then d.dict[key].xs else [];
    assert xs + a + b == xs + (a + b) && [] + a == a;
    UpdateTwice(d.dict, key, List(xs + a), List(xs + (a + b)));
  }

  lemma MembersAppend(d: Db, key: Bytes, a: Argv, b: Argv)
    ensures AddMembers(AddMembers(d, key, a), key, b) == AddMembers(d, key, a + b)
  {
    KeysAppend(a, b);
    var m := if key in d.dict && d.dict[key].Set? then d.dict[key].m else {};
    assert m + Keys(a) + Keys(b) == m + Keys(a + b) && {} + Keys(a) == Keys(a) && {} + Keys(a + b) == Keys(a + b);
    UpdateTwice(d.dict, key, Set(m + Keys(a)), Set(m + Keys(a + b)));
  }

  lemma ScoresAppend(d: Db, key: Bytes, a: Argv, b: Argv)
    requires |a| % 2 == 0
    ensures AddScores(AddScores(d, key, a), key, b) == AddScores(d, key, a + b)
  {
    var z := if key in d.dict && d.dict[key].ZSet? then d.dict[key].z else map[];
    PutPairsAppend(z, a, b, false);
    UpdateTwice(d.dict, key, ZSet(PutPairs(z, a, false)), ZSet(PutPairs(z, a + b, false)));
  }

  lemma FieldsAppend(d: Db, key: Bytes, a: Argv, b: Argv)
    requires |a| % 2 == 0
    ensures PutFields(PutFields(d, key, a), key, b) == PutFields(d, key, a + b)
  {
    var h := if key in d.dict && d.dict[key].Hash? then d.dict[key].h else map[];
    PutPairsAppend(h, a, b, true);
    UpdateTwice(d.dict, key, Hash(PutPairs(h, a, true)), Hash(PutPairs(h, a + b, true)));
  }

  lemma GrowAppend(name: Bytes, d: Db, key: Bytes, a: Argv, b: Argv)
    requires Variadic(name) && |a| % Width(name) == 0
    ensures Grow(name, Grow(name, d, key, a), key, b) == Grow(name, d, key, a + b)
  {
    hide Push, AddMembers, AddScores, PutFields;
    Names();
    if name == RPUSH {
      PushAppend(d, key, a, b);
    } else if name == SADD {
      MembersAppend(d, key, a, b);
    } else if name == ZADD {
      ScoresAppend(d, key, a, b);
    } else {
      FieldsAppend(d, key, a, b);
    }
  }

  predicate Wide(items: seq<Argv>, w: nat) { forall i | 0 <= i < |items| :: |items[i]| == w }

  lemma {:induction false} FlatLength(items: seq<Argv>, w: nat)
    requires Wide(items, w)
    ensures |Flat(items)| == |items| * w
  {
    if items != [] { FlatLength(items[1..], w); }
  }

  function ExecDbAll(fx: Effect, d: Db, cmds: seq<Argv>): Db
    decreases |cmds|
  {
    if cmds == [] then d else ExecDbAll(fx, ExecDb(fx, d, cmds[0]), cmds[1..])
  }

  lemma {:induction false} ExecDbAllAppend(fx: Effect, d: Db, a: seq<Argv>, b: seq<Argv>)
    ensures ExecDbAll(fx, d, a + b) == ExecDbAll(fx, ExecDbAll(fx, d, a), b)
    decreases |a|
  {
    if a == [] {
      assert a + b == b;
    } else {
      assert (a + b)[1..] == a[1..] + b;
      ExecDbAllAppend(fx, ExecDb(fx, d, a[0]), a[1..], b);
    }
  }

  /** Splitting into commands of at most 64 items changes nothing. */
  lemma {:induction false} ChunksExec(fx: Effect, name: Bytes, d: Db, key: Bytes, items: seq<Argv>)
    requires Variadic(name) && Wide(items, Width(name))
    ensures ExecDbAll(fx, d, ChunkCmds(name, key, items))
            == if items == [] then d else Grow(name, d, key, Flat(items))
    decreases |items|
  {
    hide Grow, ExecDb, Variadic;
    if items != [] {
      var n := Min(ITEMS_PER_CMD, |items|);
      var head, tail := items[..n], items[n..];
      var cmd := [name, key] + Flat(head);
      WidthIsPositive(name);
      FlatLength(head, Width(name));
      assert |Flat(head)| % Width(name) == 0 && Flat(head) != [];
      GrowIsExec(fx, name, d, key, Flat(head));
      var d' := Grow(name, d, key, Flat(head));
      ChunksExec(fx, name, d', key, tail);
      assert ChunkCmds(name, key, items)[1..] == ChunkCmds(name, key, tail);
      assert items == head + tail;
      FlatAppend(head, tail);
      if tail == [] {
        assert Flat(items) == Flat(head);
      } else {
        GrowAppend(name, d, key, Flat(head), Flat(tail));
      }
    }
  }

  lemma WidthIsPositive(name: Bytes)
    ensures 1 <= Width(name) <= 2
  {
  }

  // ---------- one entry ----------

  lemma FlatOne(item: Argv)
    ensures Flat([item]) == item
  {
    var items := [item];
    assert items[1..] == [] && item + [] == item;
  }

  lemma ExecOne(fx: Effect, d: Db, cmd: Argv)
    ensures ExecDbAll(fx, d, [cmd]) == ExecDb(fx, d, cmd)
  {
    var cmds := [cmd];
    assert cmds[1..] == [];
  }

  lemma {:induction false} FlatSingles(xs: seq<Bytes>)
    ensures Flat(Singles(xs)) == xs
  {
    if xs != [] {
      assert Singles(xs)[1..] == Singles(xs[1..]);
      FlatSingles(xs[1..]);
      assert [xs[0]] + xs[1..] == xs;
    }
  }

  function Items(ps: seq<(Bytes, Bytes)>, keyFirst: bool): seq<Argv> { if keyFirst then Fields(ps) else Scored(ps) }

  lemma ItemsNext(ps: seq<(Bytes, Bytes)>, keyFirst: bool)
    requires ps != []
    ensures var n := |ps| - 1;
            var item := if keyFirst then [ps[n].0, ps[n].1] else [ps[n].1, ps[n].0];
            && Items(ps, keyFirst) == Items(ps[..n], keyFirst) + [item]
            && Wide(Items(ps[..n], keyFirst), 2)
  {
  }

  lemma PutOne(m: map<Bytes, Bytes>, k: Bytes, v: Bytes, keyFirst: bool)
    ensures PutPairs(m, if keyFirst then [k, v] else [v, k], keyFirst) == m[k := v]
  {
    var item := if keyFirst then [k, v] else [v, k];
    assert item[2..] == [];
  }

  /** The pairs written out, member first or score first, put back the map. */
  lemma {:induction false} PutPairsFlat(ps: seq<(Bytes, Bytes)>, keyFirst: bool)
    requires DistinctKeys(ps)
    ensures PutPairs(map[], Flat(Items(ps, keyFirst)), keyFirst) == PairMap(ps)
  {
    hide PutPairs, Flat, Items, PairMap;
    if ps == [] {
      NoPairs(ps, keyFirst);
    } else {
      var n := |ps| - 1;
      var init, last := ps[..n], ps[n];
      var items := Items(init, keyFirst);
      var item := if keyFirst then [last.0, last.1] else [last.1, last.0];
      ItemsNext(ps, keyFirst);
      FlatAppend(items, [item]);
      FlatOne(item);
      FlatLength(items, 2);
      PutPairsAppend(map[], Flat(items), item, keyFirst);
      PairMapNext(ps);
      PutPairsFlat(init, keyFirst);
      PutOne(PairMap(init), last.0, last.1, keyFirst);
    }
  }

  lemma NoPairs(ps: seq<(Bytes, Bytes)>, keyFirst: bool)
    requires ps == []
    ensures PutPairs(map[], Flat(Items(ps, keyFirst)), keyFirst) == PairMap(ps)
  {
    assert PairMap(ps) == map[];
  }

  lemma PairMapNext(ps: seq<(Bytes, Bytes)>)
    requires ps != [] && DistinctKeys(ps)
    ensures DistinctKeys(ps[..|ps| - 1])
    ensures PairMap(ps) == PairMap(ps[..|ps| - 1])[ps[|ps| - 1].0 := ps[|ps| - 1].1]
  {
    var n := |ps| - 1;
    var init := ps[..n];
    assert forall i | 0 <= i < n :: init[i] == ps[i];
    var m := PairMap(init)[ps[n].0 := ps[n].1];
    forall k | k in m.Keys ensures k in PairMap(ps).Keys {
      if k != ps[n].0 {
        var i :| 0 <= i < n && init[i].0 == k;
        assert ps[i].0 == k;
      }
    }
    forall k | k in PairMap(ps).Keys ensures k in m.Keys && m[k] == PairMap(ps)[k] {
      var i :| 0 <= i < |ps| && ps[i].0 == k;
      if i < n { assert init[i].0 == k; }
    }
  }

  predicate Empty(o: Obj) {
    match o
    case OStr(_) => false
    case OList(xs) => xs == []
    case OSet(xs) => xs == []
    case OZSet(ps) => ps == []
    case OHash(ps) => ps == []
  }

  lemma ValueExec(fx: Effect, d: Db, key: Bytes, o: Obj)
    requires ValidObj(o) && key !in d.dict && key !in d.expires
    ensures ExecDbAll(fx, d, ValueCmds(key, o)) == if Empty(o) then d else d.(dict := d.dict[key := ValOf(o)])
  {
    Names();
    match o {
      case OStr(s) =>
        var cmd := [SET, key, s];
        ExecOne(fx, d, cmd);
        assert cmd[0] == SET && ExecDb(fx, d, cmd) == SetStr(d, key, s);
        assert d.expires - {key} == d.expires;
      case OList(xs) =>
        ChunksExec(fx, RPUSH, d, key, Singles(xs));
        FlatSingles(xs);
      case OSet(xs) =>
        ChunksExec(fx, SADD, d, key, Singles(xs));
        FlatSingles(xs);
        assert Keys(xs) == set x | x in xs;
      case OZSet(ps) =>
        ChunksExec(fx, ZADD, d, key, Scored(ps));
        PutPairsFlat(ps, false);
      case OHash(ps) =>
        ChunksExec(fx, HMSET, d, key, Fields(ps));
        PutPairsFlat(ps, true);
    }
  }

  lemma DeadlineExec(fx: Effect, d: Db, key: Bytes, t: int)
    ensures ExecDbAll(fx, d, [[PEXPIREAT, key, EncodeInt(t)]])
            == if key in d.dict then d.(expires := d.expires[key := t]) else d
  {
    Names();
    IntRoundTrip(t);
    var cmd := [PEXPIREAT, key, EncodeInt(t)];
    ExecOne(fx, d, cmd);
    assert cmd[0] == PEXPIREAT && ExecDb(fx, d, cmd) == SetDeadline(d, key, Some(t));
  }

  /** What of an entry the rewritten log brings back: an empty collection is not written at all,
      and a deadline of -1 cannot be told from no deadline. */
  function Kept(e: Entry): Image {
    if Empty(e.obj) then [] else [e.(expire := if ExpireTime(e) == -1 then None else e.expire)]
  }

  function Surviving(img: Image): Image {
    if img == [] then [] else Surviving(img[..|img| - 1]) + Kept(img[|img| - 1])
  }

  lemma EntryExec(fx: Effect, d: Db, e: Entry)
    requires ValidObj(e.obj) && e.key !in d.dict && e.key !in d.expires
    ensures ExecDbAll(fx, d, EntryCmds(e))
            == if Empty(e.obj) then d
               else Db(d.dict[e.key := ValOf(e.obj)],
                       if ExpireTime(e) == -1 then d.expires else d.expires[e.key := ExpireTime(e)])
  {
    hide ExecDb, ValueCmds, ValOf, EncodeInt;
    ValueExec(fx, d, e.key, e.obj);
    var d1 := ExecDbAll(fx, d, ValueCmds(e.key, e.obj));
    if ExpireTime(e) != -1 {
      ExecDbAllAppend(fx, d, ValueCmds(e.key, e.obj), [[PEXPIREAT, e.key, EncodeInt(ExpireTime(e))]]);
      DeadlineExec(fx, d1, e.key, ExpireTime(e));
    } else {
      assert ValueCmds(e.key, e.obj) + [] == ValueCmds(e.key, e.obj);
    }
  }

  // ---------- one database ----------

  lemma ValidPrefix(img: Image)
    requires ValidImage(img) && img != []
    ensures ValidImage(img[..|img| - 1]) && ValidObj(img[|img| - 1].obj)
    ensures forall i | 0 <= i < |img| - 1 :: img[i].key != img[|img| - 1].key
  {
  }

  lemma {:induction false} SurvivingValid(img: Image)
    requires ValidImage(img)
    ensures ValidImage(Surviving(img))
    ensures forall e | e in Surviving(img) :: exists i :: 0 <= i < |img| && img[i].key == e.key && !Empty(img[i].obj)
    ensures forall e | e in Surviving(img) :: e.expire != Some(-1)
  {
    if img != [] {
      ValidPrefix(img);
      var n := |img| - 1;
      SurvivingValid(img[..n]);
      assert forall i | 0 <= i < n :: img[..n][i] == img[i];
      var a, b := Surviving(img[..n]), Kept(img[n]);
      forall e: Entry | e in a + b ensures exists i :: 0 <= i < |img| && img[i].key == e.key && !Empty(img[i].obj) {
        if e in a {
          var i :| 0 <= i < n && img[..n][i].key == e.key && !Empty(img[..n][i].obj);
          assert img[i].key == e.key && !Empty(img[i].obj);
        } else {
          assert img[n].key == e.key;
        }
      }
      if b != [] {
        forall i | 0 <= i < |a| ensures a[i].key != b[0].key {
          assert a[i] in a;
          var k :| 0 <= k < n && img[..n][k].key == a[i].key;
        }
      }
    }
  }

  lemma DbOfNext(img: Image, e: Entry)
    requires ValidImage(img + [e])
    ensures ValidImage(img)
    ensures DbOf(img + [e]) == Db(DbOf(img).dict[e.key := ValOf(e.obj)],
                                  if e.expire.Some? then DbOf(img).expires[e.key := e.expire.value]
                                  else DbOf(img).expires)
  {
    var all := img + [e];
    ValidPrefix(all);
    assert all[..|all| - 1] == img && all[|all| - 1] == e;
  }

  lemma {:induction false} ImageExec(fx: Effect, img: Image)
    requires ValidImage(img)
    ensures ValidImage(Surviving(img))
    ensures ExecDbAll(fx, EMPTY_DB, ImageCmds(img)) == DbOf(Surviving(img))
  {
    hide ExecDb, EntryCmds, ValOf;
    SurvivingValid(img);
    if img != [] {
      var n := |img| - 1;
      var e := img[n];
      ValidPrefix(img);
      ImageExec(fx, img[..n]);
      SurvivingValid(img[..n]);
      var d := DbOf(Surviving(img[..n]));
      ExecDbAllAppend(fx, EMPTY_DB, ImageCmds(img[..n]), EntryCmds(e));
      NewKey(img);
      EntryExec(fx, d, e);
      if Empty(e.obj) {
        assert Surviving(img) == Surviving(img[..n]);
      } else {
        DbOfNext(Surviving(img[..n]), Kept(e)[0]);
      }
    }
  }

  lemma NewKey(img: Image)
    requires img != [] && ValidImage(img) && ValidImage(Surviving(img[..|img| - 1]))
    ensures var d := DbOf(Surviving(img[..|img| - 1]));
            img[|img| - 1].key !in d.dict && img[|img| - 1].key !in d.expires
  {
    var n := |img| - 1;
    var a := Surviving(img[..n]);
    ValidPrefix(img);
    SurvivingValid(img[..n]);
    forall i | 0 <= i < |a| ensures a[i].key != img[n].key {
      assert a[i] in a;
      var k :| 0 <= k < n && img[..n][k].key == a[i].key;
      assert img[k].key != img[n].key;
    }
  }

  // ---------- all databases ----------

  /** A command that acts on the selected database only. */
  predicate Plain(argv: Argv) { !Is(argv, SELECT) && !Is(argv, MULTI) && !Is(argv, EXEC) && !Across(argv) }

  predicate AllPlain(cmds: seq<Argv>) { forall i | 0 <= i < |cmds| :: Plain(cmds[i]) }

  lemma {:induction false} ChunksPlain(name: Bytes, key: Bytes, items: seq<Argv>)
    requires Variadic(name)
    ensures AllPlain(ChunkCmds(name, key, items))
    decreases |items|
  {
    if items != [] {
      var n := Min(ITEMS_PER_CMD, |items|);
      ChunksPlain(name, key, items[n..]);
      Names();
      assert ([name, key] + Flat(items[..n]))[0] == name;
    }
  }

  lemma EntryPlain(e: Entry)
    ensures AllPlain(EntryCmds(e))
  {
    Names();
    match e.obj {
      case OStr(_) =>
      case OList(xs) => ChunksPlain(RPUSH, e.key, Singles(xs));
      case OSet(xs) => ChunksPlain(SADD, e.key, Singles(xs));
      case OZSet(ps) => ChunksPlain(ZADD, e.key, Scored(ps));
      case OHash(ps) => ChunksPlain(HMSET, e.key, Fields(ps));
    }
  }

  lemma {:induction false} ImagePlain(img: Image)
    ensures AllPlain(ImageCmds(img))
  {
    if img != [] {
      ImagePlain(img[..|img| - 1]);
      EntryPlain(img[|img| - 1]);
    }
  }

  lemma {:induction false} RunPlain(fx: Effect, s: Session, cmds: seq<Argv>)
    requires Valid(s) && s.multi.None? && AllPlain(cmds)
    ensures RunAll(fx, s, cmds) == s.(dbs := s.dbs[s.cur := ExecDbAll(fx, s.dbs[s.cur], cmds)])
    decreases |cmds|
  {
    hide ExecDb;
    if cmds == [] {
      assert s.dbs[s.cur := s.dbs[s.cur]] == s.dbs;
    } else {
      var s' := s.(dbs := s.dbs[s.cur := ExecDb(fx, s.dbs[s.cur], cmds[0])]);
      assert Plain(cmds[0]) && Run(fx, s, cmds[0]) == s';
      RunPlain(fx, s', cmds[1..]);
      assert s'.dbs[s.cur := ExecDbAll(fx, s'.dbs[s.cur], cmds[1..])]
             == s.dbs[s.cur := ExecDbAll(fx, s.dbs[s.cur], cmds)];
    }
  }

  /** A server that has just started: n empty databases, the first one selected. */
  function Blank(n: nat): Session { Session(seq(n, i => EMPTY_DB), 0, None) }

  lemma SelectRun(fx: Effect, s: Session, j: nat)
    requires Valid(s) && s.multi.None? && j < |s.dbs|
    ensures RunAll(fx, s, [[SELECT, EncodeInt(j)]]) == s.(cur := j)
  {
    Names();
    IntRoundTrip(j);
    var cmd := [SELECT, EncodeInt(j)];
    var cmds := [cmd];
    assert cmds[1..] == [] && cmd[0] == SELECT;
    assert Run(fx, s, cmd) == s.(cur := j);
  }

  lemma DbCmdsRun(fx: Effect, s: Session, j: nat, img: Image)
    requires Valid(s) && s.multi.None? && j < |s.dbs| && s.dbs[j] == EMPTY_DB && ValidImage(img)
    ensures ValidImage(Surviving(img))
    ensures RunAll(fx, s, DbCmds(j, img)).dbs == s.dbs[j := DbOf(Surviving(img))]
    ensures RunAll(fx, s, DbCmds(j, img)).multi.None?
  {
    hide Run, ExecDbAll, EncodeInt;
    ImageExec(fx, img);
    if img == [] {
      assert s.dbs[j := EMPTY_DB] == s.dbs;
    } else {
      RunAllAppend(fx, s, [[SELECT, EncodeInt(j)]], ImageCmds(img));
      SelectRun(fx, s, j);
      ImagePlain(img);
      RunPlain(fx, s.(cur := j), ImageCmds(img));
    }
  }

  ghost predicate Rebuilt(dbs: seq<Db>, imgs: seq<Image>) {
    && |imgs| <= |dbs|
    && (forall i | 0 <= i < |imgs| :: ValidImage(Surviving(imgs[i])) && dbs[i] == DbOf(Surviving(imgs[i])))
    && (forall i | |imgs| <= i < |dbs| :: dbs[i] == EMPTY_DB)
  }

  lemma {:induction false} RewriteRun(fx: Effect, imgs: seq<Image>, n: nat)
    requires |imgs| <= n && 0 < n && forall i | 0 <= i < |imgs| :: ValidImage(imgs[i])
    ensures Rebuilt(RunAll(fx, Blank(n), RewriteCmds(imgs)).dbs, imgs)
    ensures RunAll(fx, Blank(n), RewriteCmds(imgs)).multi.None?
  {
    hide RunAll, DbCmds, Rebuilt, ValidImage;
    if imgs == [] {
      BlankRebuilt(fx, n);
    } else {
      var k := |imgs| - 1;
      var init := imgs[..k];
      RewriteRun(fx, init, n);
      var s := RunAll(fx, Blank(n), RewriteCmds(init));
      RunAllAppend(fx, Blank(n), RewriteCmds(init), DbCmds(k, imgs[k]));
      RebuiltNext(s.dbs, init, imgs[k]);
      DbCmdsRun(fx, s, k, imgs[k]);
      assert imgs == init + [imgs[k]];
    }
  }

  lemma BlankRebuilt(fx: Effect, n: nat)
    requires 0 < n
    ensures RunAll(fx, Blank(n), []) == Blank(n) && Rebuilt(Blank(n).dbs, [])
  {
  }

  lemma RebuiltNext(dbs: seq<Db>, imgs: seq<Image>, img: Image)
    requires Rebuilt(dbs, imgs) && |imgs| < |dbs| && ValidImage(img)
    ensures dbs[|imgs|] == EMPTY_DB
    ensures ValidImage(Surviving(img)) && Rebuilt(dbs[|imgs| := DbOf(Surviving(img))], imgs + [img])
  {
    hide DbOf, ValidImage;
    SurvivingValid(img);
  }

  // ---------- exactly when nothing is lost ----------

  /** No collection is empty and no deadline is -1. */
  ghost predicate Proper(img: Image) {
    forall i | 0 <= i < |img| :: !Empty(img[i].obj) && img[i].expire != Some(-1)
  }

  lemma {:induction false} ProperSurvives(img: Image)
    requires Proper(img)
    ensures Surviving(img) == img
  {
    if img != [] {
      var n := |img| - 1;
      ProperSurvives(img[..n]);
      assert img == img[..n] + [img[n]];
    }
  }

  lemma {:induction false} DeadlineOf(img: Image, i: nat)
    requires ValidImage(img) && i < |img|
    ensures img[i].key in DbOf(img).expires <==> img[i].expire.Some?
    ensures img[i].expire.Some? ==> DbOf(img).expires[img[i].key] == img[i].expire.value
  {
    var n := |img| - 1;
    ValidPrefix(img);
    if i < n {
      DeadlineOf(img[..n], i);
    } else {
      assert forall k | 0 <= k < n :: img[..n][k] == img[k];
      assert img[n].key !in DbOf(img[..n]).dict;
    }
  }

  /** A database comes back the same if and only if it holds no empty collection and no deadline
      of -1 (the value getExpire returns for a key without deadline). */
  lemma SurvivesExactly(img: Image)
    requires ValidImage(img)
    ensures ValidImage(Surviving(img))
    ensures DbOf(Surviving(img)) == DbOf(img) <==> Proper(img)
  {
    SurvivingValid(img);
    if Proper(img) {
      ProperSurvives(img);
    } else {
      var i :| 0 <= i < |img| && (Empty(img[i].obj) || img[i].expire == Some(-1));
      var a, k := Surviving(img), img[i].key;
      assert k in DbOf(img).dict;
      DeadlineOf(img, i);
      if k in DbOf(a).dict {
        var j :| 0 <= j < |a| && a[j].key == k;
        assert a[j] in a;
        var m :| 0 <= m < |img| && img[m].key == k && !Empty(img[m].obj);
        assert m == i;
        DeadlineOf(a, j);
      }
    }
  }

  /** Rewrite preserves meaning: replaying the rewritten log on an empty server rebuilds every
      database, for any number of databases and any iteration order, if and only if none of them
      holds an empty collection or a deadline of -1. */
  lemma RewritePreserves(fx: Effect, imgs: seq<Image>)
    requires imgs != [] && forall i | 0 <= i < |imgs| :: ValidImage(imgs[i])
    ensures RunAll(fx, Blank(|imgs|), RewriteCmds(imgs)).dbs == seq(|imgs|, i requires 0 <= i < |imgs| => DbOf(imgs[i]))
            <==> forall i | 0 <= i < |imgs| :: Proper(imgs[i])
    ensures RunAll(fx, Blank(|imgs|), RewriteCmds(imgs)).multi.None?
  {
    hide DbOf, Run, RewriteCmds, Proper;
    RewriteRun(fx, imgs, |imgs|);
    var dbs := RunAll(fx, Blank(|imgs|), RewriteCmds(imgs)).dbs;
    forall i | 0 <= i < |imgs| ensures dbs[i] == DbOf(imgs[i]) <==> Proper(imgs[i]) { SurvivesExactly(imgs[i]); }
    var want := seq(|imgs|, i requires 0 <= i < |imgs| => DbOf(imgs[i]));
    assert dbs == want <==> forall i | 0 <= i < |imgs| :: dbs[i] == want[i];
    assert forall i | 0 <= i < |imgs| :: want[i] == DbOf(imgs[i]);
  }

  /** Key k with the value v and the deadline -1.  A server gets there by PEXPIREAT from a client of a
      writable replica, or by loading a log with such a command: neither tests for a deadline in the past. */
  function Minus1(k: Bytes, v: Bytes): Image { [Entry(k, OStr(v), Some(-1))] }

  /** The rewritten log brings the key back without a deadline, for good. */
  lemma DeadlineLost(fx: Effect, k: Bytes, v: Bytes)
    ensures ExecDbAll(fx, EMPTY_DB, [[SET, k, v], [PEXPIREAT, k, EncodeInt(-1)]]) == Db(map[k := Str(v)], map[k := -1])
    ensures ValidImage(Minus1(k, v)) && DbOf(Minus1(k, v)) == Db(map[k := Str(v)], map[k := -1])
    ensures RunAll(fx, Blank(1), RewriteCmds([Minus1(k, v)])).dbs == [Db(map[k := Str(v)], map[])]
  {
    hide RunAll, RewriteCmds, ExecDb, EncodeInt, ExecDbAll;
    var img := Minus1(k, v);
    assert img[..0] == [];
    assert Surviving(img) == [Entry(k, OStr(v), None)];
    var kept: Image := [Entry(k, OStr(v), None)];
    assert kept[..0] == [];
    RewriteRun(fx, [img], 1);
    SetThenDeadline(fx, k, v);
  }

  lemma SetThenDeadline(fx: Effect, k: Bytes, v: Bytes)
    ensures ExecDbAll(fx, EMPTY_DB, [[SET, k, v], [PEXPIREAT, k, EncodeInt(-1)]]) == Db(map[k := Str(v)], map[k := -1])
  {
    hide EncodeInt;
    var cmds := [[SET, k, v], [PEXPIREAT, k, EncodeInt(-1)]];
    EntryExec(fx, EMPTY_DB, Entry(k, OStr(v), None));
    assert EntryCmds(Entry(k, OStr(v), None)) == [[SET, k, v]];
    assert cmds == [[SET, k, v]] + [[PEXPIREAT, k, EncodeInt(-1)]];
    ExecDbAllAppend(fx, EMPTY_DB, [[SET, k, v]], [[PEXPIREAT, k, EncodeInt(-1)]]);
    DeadlineExec(fx, Db(map[k := Str(v)], map[]), k, -1);
  }
}
