/** The code that writes the rewritten log, byte by byte and item by item, and its agreement with
    the commands of `AofRewrite`: every command declares exactly the arguments it then carries. */
module AofRewriteRio {
  import opened Resp
  import opened Dataset
  import opened AofRewrite

  /** Arguments of the items from i to n, as written. */
  ghost function ItemBytes(items: seq<Argv>, i: nat, n: nat): Bytes
    requires i <= n <= |items|
  {
    EncodeArgs(Flat(items[i..n]))
  }

  lemma ItemBytesFirst(items: seq<Argv>, i: nat, n: nat)
    requires i < n <= |items|
    ensures ItemBytes(items, i, n) == EncodeArgs(items[i]) + ItemBytes(items, i + 1, n)
  {
    assert items[i..n][1..] == items[i + 1..n];
    EncodeArgsAppend(items[i], Flat(items[i + 1..n]));
  }

  /** Arguments left to write in the current command, after count of them. */
  ghost function Pending(count: nat, left: nat): nat
    requires count < ITEMS_PER_CMD
  {
    if count == 0 then 0 else Min(ITEMS_PER_CMD - count, left)
  }

  /** Everything still to be written from item i on. */
  ghost function Rest(name: Bytes, key: Bytes, items: seq<Argv>, i: nat, count: nat): Bytes
    requires i <= |items| && count < ITEMS_PER_CMD
  {
    var n := i + Pending(count, |items| - i);
    ItemBytes(items, i, n) + EncodeLog(ChunkCmds(name, key, items[n..]))
  }

  /** At the start of a command: its header, then the items. */
  lemma RestAtStart(name: Bytes, key: Bytes, items: seq<Argv>, i: nat, w: nat)
    requires i < |items| && Wide(items, w)
    ensures var n := Min(ITEMS_PER_CMD, |items| - i);
            Rest(name, key, items, i, 0)
            == EncodeCount(STAR, 2 + n * w) + EncodeArg(name) + EncodeArg(key)
               + ItemBytes(items, i, i + n) + EncodeLog(ChunkCmds(name, key, items[i + n..]))
  {
    hide EncodeCount, EncodeArg;
    var n := Min(ITEMS_PER_CMD, |items| - i);
    var tail := items[i..];
    assert tail[..n] == items[i..i + n] && tail[n..] == items[i + n..];
    var flat := Flat(items[i..i + n]);
    FlatLength(items[i..i + n], w);
    var cmd := [name, key] + flat;
    assert ChunkCmds(name, key, tail) == [cmd] + ChunkCmds(name, key, items[i + n..]);
    assert cmd[0] == name && cmd[1..] == [key] + flat && ([key] + flat)[1..] == flat;
    assert EncodeArgs(cmd) == EncodeArg(name) + (EncodeArg(key) + EncodeArgs(flat));
    assert ItemBytes(items, i, i) == [] by { assert items[i..i] == []; }
    LogFirst(cmd, ChunkCmds(name, key, items[i + n..]));
  }

  /** After the first item of a command with n items. */
  lemma RestInside(name: Bytes, key: Bytes, items: seq<Argv>, i: nat, n: nat)
    requires i < |items| && n == Min(ITEMS_PER_CMD, |items| - i)
    ensures Rest(name, key, items, i + 1, 1)
            == ItemBytes(items, i + 1, i + n) + EncodeLog(ChunkCmds(name, key, items[i + n..]))
  {
    hide ItemBytes, EncodeLog, ChunkCmds;
  }

  lemma LogFirst(cmd: Argv, cmds: seq<Argv>)
    ensures EncodeLog([cmd] + cmds) == EncodeCount(STAR, |cmd|) + EncodeArgs(cmd) + EncodeLog(cmds)
  {
    var all := [cmd] + cmds;
    assert all[1..] == cmds;
  }

  /** Writing one item inside a command. */
  lemma RestNext(name: Bytes, key: Bytes, items: seq<Argv>, i: nat, count: nat)
    requires i < |items| && 0 < count < ITEMS_PER_CMD
    ensures Rest(name, key, items, i, count)
            == EncodeArgs(items[i]) + Rest(name, key, items, i + 1, if count + 1 == ITEMS_PER_CMD then 0 else count + 1)
  {
    hide ChunkCmds, EncodeLog, EncodeArgs, Flat;
    var n := i + Pending(count, |items| - i);
    ItemBytesFirst(items, i, n);
    ItemBytesNone(items, n);
    if count + 1 == ITEMS_PER_CMD {
      assert n == i + 1;
    }
  }

  lemma ItemBytesNone(items: seq<Argv>, n: nat)
    requires n <= |items|
    ensures ItemBytes(items, n, n) == []
  {
    assert items[n..n] == [];
  }

  class Rio {
    var out: Bytes

    constructor ()
      ensures out == []
    {
      out := [];
    }

    method WriteBulkCount(prefix: Byte, count: nat)
      modifies this
      ensures out == old(out) + EncodeCount(prefix, count)
    {
      out := out + [prefix] + Digits(count) + CRLF;
    }

    method WriteBulkString(s: Bytes)
      modifies this
      ensures out == old(out) + EncodeArg(s)
    {
      WriteBulkCount(DOLLAR, |s|);
      if |s| > 0 { out := out + s; }
      out := out + CRLF;
    }

    method WriteItem(item: Argv)
      requires |item| <= 2
      modifies this
      ensures out == old(out) + EncodeArgs(item)
    {
      hide EncodeArg;
      ArgsOfItem(item);
      if |item| >= 1 { WriteBulkString(item[0]); }
      if |item| == 2 { WriteBulkString(item[1]); }
    }

    /** The loop of rewriteListObject, rewriteSetObject, rewriteSortedSetObject and
        rewriteHashObject: width arguments per item. */
    method RewriteItems(name: Bytes, key: Bytes, items: seq<Argv>, width: nat)
      requires 1 <= width <= 2 && Wide(items, width)
      modifies this
      ensures out == old(out) + EncodeLog(ChunkCmds(name, key, items))
    {
      hide Rest, EncodeArg, EncodeCount;
      ghost var all := out + Rest(name, key, items, 0, 0);
      RestIsAll(name, key, items);
      var count: nat, i: nat := 0, 0;
      while i < |items|
        invariant i <= |items| && count < ITEMS_PER_CMD
        invariant out + Rest(name, key, items, i, count) == all
      {
        ghost var before := out;
        if count == 0 {
          WriteHeader(name, key, items, i, width);
          assert out + (EncodeArgs(items[i]) + Rest(name, key, items, i + 1, 1)) == all;
        } else {
          RestNext(name, key, items, i, count);
        }
        WriteItem(items[i]);
        count := count + 1;
        if count == ITEMS_PER_CMD { count := 0; }
        i := i + 1;
      }
      RestAtEnd(name, key, items, count);
    }

    method WriteHeader(name: Bytes, key: Bytes, items: seq<Argv>, i: nat, width: nat)
      requires i < |items| && Wide(items, width)
      modifies this
      ensures out + (EncodeArgs(items[i]) + Rest(name, key, items, i + 1, 1)) == old(out) + Rest(name, key, items, i, 0)
    {
      hide EncodeArg, EncodeCount, EncodeArgs, EncodeLog, Rest, ItemBytes;
      var left := |items| - i;
      var n := if left > ITEMS_PER_CMD then ITEMS_PER_CMD else left;
      RestAtStart(name, key, items, i, width);
      RestInside(name, key, items, i, n);
      ItemBytesFirst(items, i, i + n);
      WriteBulkCount(STAR, 2 + n * width);
      WriteBulkString(name);
      WriteBulkString(key);
    }

    /** One key: its value, then its deadline if it has one. */
    method RewriteEntry(e: Entry)
      modifies this
      ensures out == old(out) + EncodeLog(EntryCmds(e))
    {
      RewriteValue(e.key, e.obj);
      EncodeLogAppend(ValueCmds(e.key, e.obj),
                      if ExpireTime(e) != -1 then [[PEXPIREAT, e.key, EncodeInt(ExpireTime(e))]] else []);
      if ExpireTime(e) != -1 { WriteCommand([PEXPIREAT, e.key, EncodeInt(ExpireTime(e))]); }
    }

    method RewriteValue(key: Bytes, o: Obj)
      modifies this
      ensures out == old(out) + EncodeLog(ValueCmds(key, o))
    {
      match o {
        case OStr(s) => WriteCommand([SET, key, s]);
        case OList(xs) => RewriteItems(RPUSH, key, Singles(xs), 1);
        case OSet(xs) => RewriteItems(SADD, key, Singles(xs), 1);
        case OZSet(ps) => RewriteItems(ZADD, key, Scored(ps), 2);
        case OHash(ps) => RewriteItems(HMSET, key, Fields(ps), 2);
      }
    }

    /** A command whose header is a constant of the source. */
    method WriteCommand(argv: Argv)
      modifies this
      ensures out == old(out) + EncodeLog([argv])
    {
      hide EncodeArg, EncodeCount;
      OneCommand(argv);
      WriteBulkCount(STAR, |argv|);
      ghost var head := out;
      for j := 0 to |argv|
        invariant out == head + EncodeArgs(argv[..j])
      {
        EncodeArgsNext(argv, j);
        WriteBulkString(argv[j]);
      }
      assert argv[..|argv|] == argv;
    }

    method RewriteDb(j: nat, img: Image)
      modifies this
      ensures out == old(out) + EncodeLog(DbCmds(j, img))
    {
      hide EntryCmds, EncodeInt, ImageCmds, EncodeLog;
      NoCommands();
      if img == [] { return; }
      WriteCommand([SELECT, EncodeInt(j)]);
      EncodeLogAppend([[SELECT, EncodeInt(j)]], ImageCmds(img));
      ghost var head := out;
      for i := 0 to |img|
        invariant out == head + EncodeLog(ImageCmds(img[..i]))
      {
        ImageNext(img, i);
        RewriteEntry(img[i]);
      }
      assert img[..|img|] == img;
    }

    /** rewriteAppendOnlyFileRio. */
    method RewriteAppendOnlyFile(imgs: seq<Image>)
      modifies this
      ensures out == old(out) + EncodeLog(RewriteCmds(imgs))
    {
      hide DbCmds, RewriteCmds, EncodeLog;
      NoCommands();
      for j := 0 to |imgs|
        invariant out == old(out) + EncodeLog(RewriteCmds(imgs[..j]))
      {
        RewriteNext(imgs, j);
        RewriteDb(j, imgs[j]);
      }
      assert imgs[..|imgs|] == imgs;
    }
  }

  lemma ArgsOfItem(item: Argv)
    requires |item| <= 2
    ensures EncodeArgs(item)
            == (if |item| >= 1 then EncodeArg(item[0]) else []) + (if |item| == 2 then EncodeArg(item[1]) else [])
  {
    if |item| >= 1 { assert EncodeArgs(item) == EncodeArg(item[0]) + EncodeArgs(item[1..]); }
    if |item| == 2 { assert item[1..][0] == item[1] && item[1..][1..] == []; }
  }

  lemma OneCommand(argv: Argv)
    ensures EncodeLog([argv]) == EncodeCount(STAR, |argv|) + EncodeArgs(argv)
  {
    hide EncodeCount, EncodeArgs;
    var cmds := [argv];
    assert cmds[1..] == [];
    assert EncodeCommand(argv) + [] == EncodeCommand(argv);
  }

  lemma NoCommands()
    ensures EncodeLog([]) == [] && ImageCmds([]) == [] && RewriteCmds([]) == []
  {
  }

  lemma ImageNext(img: Image, i: nat)
    requires i < |img|
    ensures EncodeLog(ImageCmds(img[..i + 1])) == EncodeLog(ImageCmds(img[..i])) + EncodeLog(EntryCmds(img[i]))
  {
    hide EntryCmds, EncodeLog;
    assert img[..i + 1][..i] == img[..i];
    EncodeLogAppend(ImageCmds(img[..i]), EntryCmds(img[i]));
  }

  lemma RewriteNext(imgs: seq<Image>, j: nat)
    requires j < |imgs|
    ensures EncodeLog(RewriteCmds(imgs[..j + 1])) == EncodeLog(RewriteCmds(imgs[..j])) + EncodeLog(DbCmds(j, imgs[j]))
  {
    hide DbCmds, EncodeLog;
    assert imgs[..j + 1][..j] == imgs[..j];
    EncodeLogAppend(RewriteCmds(imgs[..j]), DbCmds(j, imgs[j]));
  }

  lemma RestIsAll(name: Bytes, key: Bytes, items: seq<Argv>)
    ensures Rest(name, key, items, 0, 0) == EncodeLog(ChunkCmds(name, key, items))
  {
    assert items[0..] == items && items[0..0] == [];
  }

  lemma RestAtEnd(name: Bytes, key: Bytes, items: seq<Argv>, count: nat)
    requires count < ITEMS_PER_CMD
    ensures Rest(name, key, items, |items|, count) == []
  {
    assert items[|items|..|items|] == [] && items[|items|..] == [];
  }
}
