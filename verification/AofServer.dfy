/** The parent process: the append-only file's buffers, its writes and the handlers of a rewrite, each
    method proved to be the step of the state machine that stands for it. */
module AofServer {
  import opened Common
  import opened Resp
  import opened Dataset
  import opened AofRewrite
  import opened AofFeed
  import opened AofJournal
  import opened AofProtocol

  const BLOCK_SIZE: nat := 1024 * 1024 * 10

  /** One call of write(2). */
  datatype WriteResult = Wrote(n: nat) | Interrupted | Error

  datatype FsyncPolicy = Always | EverySecond | Never

  datatype FlushOutcome = Nothing | Postponed | Complete | Incomplete | Exited

  /** The used parts of the blocks, one after the other. */
  function Flatten(blocks: seq<Bytes>): Bytes {
    if blocks == [] then [] else blocks[0] + Flatten(blocks[1..])
  }

  lemma {:induction false} FlattenAppend(a: seq<Bytes>, b: seq<Bytes>)
    ensures Flatten(a + b) == Flatten(a) + Flatten(b)
  {
    if a == [] {
      assert a + b == b;
    } else {
      assert (a + b)[1..] == a[1..] + b;
      FlattenAppend(a[1..], b);
      assert a[0] + (Flatten(a[1..]) + Flatten(b)) == Flatten(a) + Flatten(b);
    }
  }

  lemma FlattenOne(b: Bytes)
    ensures Flatten([b]) == b
  {
    var blocks := [b];
    assert blocks[1..] == [];
    assert b + [] == b;
  }

  /** Growing the last block grows the whole. */
  lemma FlattenLast(blocks: seq<Bytes>, more: Bytes)
    requires blocks != []
    ensures Flatten(blocks[|blocks| - 1 := blocks[|blocks| - 1] + more]) == Flatten(blocks) + more
  {
    hide Flatten;
    var k := |blocks| - 1;
    var init, last := blocks[..k], blocks[k];
    assert blocks == init + [last];
    assert blocks[k := last + more] == init + [last + more];
    FlattenAppend(init, [last]);
    FlattenAppend(init, [last + more]);
    FlattenOne(last);
    FlattenOne(last + more);
  }

  lemma FlattenPrefix(blocks: seq<Bytes>, i: nat)
    requires i < |blocks|
    ensures Flatten(blocks[..i + 1]) == Flatten(blocks[..i]) + blocks[i]
  {
    hide Flatten;
    assert blocks[..i + 1] == blocks[..i] + [blocks[i]];
    FlattenAppend(blocks[..i], [blocks[i]]);
    FlattenOne(blocks[i]);
  }

  class AofServer {
    var state: State
    var selectedDb: int
    var file: Bytes
    var currentSize: nat
    var aofBuf: Bytes
    var blocks: seq<Bytes>
    var stopSendingDiff: bool
    var dataPipe: Bytes
    var askPipe: bool
    var ackPipe: bool
    var childPid: int
    var policy: FsyncPolicy
    var flushPostponedStart: int
    var lastWriteOk: bool
    ghost var child: Child

    ghost predicate Valid()
      reads this
    {
      && -1 <= selectedDb
      && (forall i | 0 <= i < |blocks| :: |blocks[i]| <= BLOCK_SIZE)
      && (state.On? ==> currentSize == |file|)
    }

    ghost function View(): Aof
      reads this
    {
      Aof(state, if selectedDb < 0 then None else Some(selectedDb), file, aofBuf, Flatten(blocks),
          stopSendingDiff, dataPipe, askPipe, ackPipe, if childPid == -1 then None else Some(child))
    }

    // ---------- the rewrite buffer ----------

    /** aofRewriteBufferAppend. */
    method BufferAppend(bytes: Bytes)
      requires Valid()
      modifies `blocks
      ensures Valid() && Flatten(blocks) == old(Flatten(blocks)) + bytes
    {
      hide Flatten;
      var i := 0;
      assert bytes[..0] == [];
      while i < |bytes|
        invariant i <= |bytes| && Valid()
        invariant Flatten(blocks) == old(Flatten(blocks)) + bytes[..i]
        decreases |bytes| - i, if blocks != [] && |blocks[|blocks| - 1]| < BLOCK_SIZE then 0 else 1
      {
        if blocks != [] {
          var last := |blocks| - 1;
          var room := BLOCK_SIZE - |blocks[last]|;
          var thislen := if room < |bytes| - i then room else |bytes| - i;
          if thislen > 0 {
            FlattenLast(blocks, bytes[i..i + thislen]);
            blocks := blocks[last := blocks[last] + bytes[i..i + thislen]];
            assert bytes[..i] + bytes[i..i + thislen] == bytes[..i + thislen];
            i := i + thislen;
          }
        }
        if i < |bytes| {
          FlattenAppend(blocks, [[]]);
          FlattenOne([]);
          blocks := blocks + [[]];
        }
      }
      assert bytes[..i] == bytes;
    }

    /** aofChildWriteDiffData: takes[k] is what the k-th write puts into the pipe, 0 or nothing at all
        when the pipe is full. */
    method ChildWriteDiffData(takes: seq<nat>) returns (n: nat, removed: bool)
      requires Valid()
      modifies `blocks, `dataPipe
      ensures Valid() && n <= |old(View()).rewriteBuf| && View() == Sent(old(View()), n)
      ensures removed <==> stopSendingDiff || blocks == []
    {
      hide Flatten, Sent;
      n, removed := 0, false;
      var k := 0;
      SentNothing(View());
      ghost var before := View();
      while true
        invariant Valid() && n <= |before.rewriteBuf| && View() == Sent(before, n)
        decreases |blocks|, if blocks != [] then |blocks[0]| else 0
      {
        if stopSendingDiff || blocks == [] {
          removed := true;
          return;
        }
        var take := 0;
        if |blocks[0]| > 0 {
          take := if k < |takes| then takes[k] else 0;
          k := k + 1;
          if take == 0 { return; }
          if take > |blocks[0]| { take := |blocks[0]|; }
        }
        SentMore(before, View(), n, take, blocks);
        SendSome(take);
        n := n + take;
      }
    }

    /** One write of the loop; an emptied block is deleted. */
    method SendSome(take: nat)
      requires Valid() && blocks != [] && take <= |blocks[0]|
      modifies `blocks, `dataPipe
      ensures Valid() && dataPipe == old(dataPipe + blocks[0][..take])
      ensures Flatten(blocks) == old(Flatten(blocks[0 := blocks[0][take..]]))
      ensures blocks == if take == |old(blocks[0])| then old(blocks[1..]) else old(blocks[0 := blocks[0][take..]])
    {
      var block := blocks[0];
      dataPipe := dataPipe + block[..take];
      blocks := blocks[0 := block[take..]];
      assert blocks[1..] == old(blocks[1..]);
      if |blocks[0]| == 0 {
        assert Flatten(blocks) == Flatten(blocks[1..]);
        blocks := blocks[1..];
      }
    }

    /** aofRewriteBufferWrite to the child's file: complete only if every block was written whole. */
    method BufferWrite(temp: Bytes, results: seq<WriteResult>) returns (out: Bytes, ok: bool)
      requires Valid()
      ensures ok ==> out == temp + Flatten(blocks)
      ensures temp <= out
    {
      hide Flatten;
      var i, k := 0, 0;
      out := temp;
      assert blocks[..0] == [];
      NoBlocks();
      while i < |blocks|
        invariant i <= |blocks| && out == temp + Flatten(blocks[..i])
      {
        FlattenPrefix(blocks, i);
        var block := blocks[i];
        if |block| > 0 {
          var r := if k < |results| then results[k] else Error;
          k := k + 1;
          var nwritten := if r.Wrote? then (if r.n < |block| then r.n else |block|) else 0;
          out := out + block[..nwritten];
          if nwritten != |block| { return out, false; }
          assert block[..nwritten] == block;
        }
        i := i + 1;
      }
      assert blocks[..i] == blocks;
      ok := true;
    }

    // ---------- feeding ----------

    /** feedAppendOnlyFile at time t; aborted is the failed assertion that not both an EX and a PX
        argument were found. */
    method Feed(db: nat, argv: Argv, t: int) returns (aborted: bool)
      requires Valid()
      modifies `selectedDb, `aofBuf, `blocks
      ensures aborted <==> Aborts(argv)
      ensures !aborted ==>
                && Valid()
                && View() == Append(old(View()), EncodeLog(SelectCmds(old(View()).selected, db) + Translate(argv, t)),
                                    Some(db))
      ensures aborted ==> Valid() && View() == old(View())
    {
      hide Translate, EncodeLog, EncodeCommand, Scan, Is, Flatten, EncodeInt;
      var buf: Bytes := [];
      ghost var selected := View().selected;
      if db != selectedDb { buf := CatGenericCommand(buf, [SELECT, EncodeInt(db)]); }
      SelectEncoded(selected, db);
      EncodeLogAppend(SelectCmds(selected, db), Translate(argv, t));
      buf, aborted := CatTranslated(buf, argv, t);
      if aborted { return; }
      selectedDb := db;
      if state.On? { aofBuf := aofBuf + buf; }
      if childPid != -1 { BufferAppend(buf); }
    }

    /** The commands of one event given to propagate, one after the other. */
    method Propagate(db: nat, fed: seq<Argv>, t: int) returns (aborted: bool)
      requires Valid()
      modifies `selectedDb, `aofBuf, `blocks
      ensures aborted <==> !state.Off? && exists i :: 0 <= i < |fed| && Aborts(fed[i])
      ensures !aborted ==> Valid() && View() == Propagated(old(View()), db, fed, t)
    {
      hide Flatten, Propagated, Aborts;
      aborted := false;
      NonePropagated(View(), db, fed, t);
      if state.Off? { return; }
      var i := 0;
      while i < |fed|
        invariant i <= |fed| && Valid() && View() == Propagated(old(View()), db, fed[..i], t)
        invariant forall j | 0 <= j < i :: !Aborts(fed[j])
      {
        NextPropagated(old(View()), db, fed, i, t);
        aborted := Feed(db, fed[i], t);
        if aborted { return; }
        i := i + 1;
      }
      assert fed[..i] == fed;
    }

    /** What execCommand gives to propagate from the first command that may write: MULTI, what the
        commands feed, each batch as it is executed, and EXEC. */
    method Exec(db: nat, batches: seq<Batch>, execDb: nat, t: int) returns (aborted: bool)
      requires Valid()
      modifies `selectedDb, `aofBuf, `blocks
      ensures aborted <==> !state.Off?
                           && exists i, j ::
                              0 <= i < |batches| && 0 <= j < |batches[i].fed| && Aborts(batches[i].fed[j])
      ensures !aborted ==> Valid() && View() == Executed(old(View()), db, batches, execDb, t)
    {
      hide Flatten, Propagated, Aborts;
      NeverAborts();
      aborted := Propagate(db, [[MULTI]], t);
      ghost var inside := View();
      var i := 0;
      while i < |batches|
        invariant i <= |batches| && Valid() && AllPropagated(View(), batches[i..]) == AllPropagated(inside, batches)
        invariant state.Off? || forall h, j | 0 <= h < i && 0 <= j < |batches[h].fed| :: !Aborts(batches[h].fed[j])
      {
        assert batches[i..][0] == batches[i] && batches[i..][1..] == batches[i + 1..];
        aborted := Propagate(batches[i].db, batches[i].fed, batches[i].t);
        if aborted { return; }
        i := i + 1;
      }
      aborted := Propagate(execDb, [[EXEC]], t);
    }

    // ---------- the rewrite ----------

    /** rewriteAppendOnlyFileBackground in the parent: pipes says whether the pipes could be made, and
        pid is what fork returned. */
    method StartRewrite(rdbChild: bool, pipes: bool, pid: int, ghost snapshot: Bytes) returns (ok: bool)
      requires Valid()
      modifies `childPid, `selectedDb, `stopSendingDiff, `dataPipe, `askPipe, `ackPipe, `child
      ensures Valid() && (ok <==> old(childPid) == -1 && !rdbChild && pipes && pid != -1)
      ensures ok ==> View() == Forked(old(View()), snapshot)
      ensures !ok ==> View() == if old(childPid) == -1 && !rdbChild then Unforked(old(View()), pipes) else old(View())
    {
      if childPid != -1 || rdbChild { return false; }
      if !pipes { return false; }
      stopSendingDiff := false;
      dataPipe, askPipe, ackPipe := [], false, false;
      if pid == -1 { return false; }
      childPid := pid;
      selectedDb := -1;
      child := Child(Saving, [], snapshot);
      ok := true;
    }

    /** aofChildPipeReadable: the flag is set before the answer is sent. */
    method ChildPipeReadable(writeOk: bool)
      requires Valid()
      modifies `stopSendingDiff, `askPipe, `ackPipe
      ensures Valid()
      ensures View() == if old(askPipe) then Answered(old(View()), writeOk) else old(View())
    {
      if askPipe {
        askPipe := false;
        stopSendingDiff := true;
        ackPipe := writeOk;
      }
    }

    method CleanupRewrite()
      requires Valid()
      modifies `blocks, `dataPipe, `askPipe, `ackPipe, `childPid
      ensures Valid() && View() == Cleanup(old(View()))
    {
      dataPipe, askPipe, ackPipe := [], false, false;
      blocks := [];
      childPid := -1;
    }

    /** backgroundRewriteDoneHandler; temp is the file the child left. */
    method RewriteDone(exitcode: int, bysignal: bool, temp: Bytes, opens: bool, results: seq<WriteResult>,
                       renamed: bool)
      returns (written: bool)
      requires Valid() && childPid != -1
      requires !bysignal && exitcode == 0 <==> child.phase.Finished?
      requires child.phase.Finished? ==> temp == child.temp
      modifies `state, `selectedDb, `file, `currentSize, `aofBuf, `blocks, `dataPipe, `askPipe, `ackPipe, `childPid
      ensures Valid() && View() == Done(old(View()), opens, written, renamed)
    {
      hide Flatten;
      written := false;
      if !bysignal && exitcode == 0 {
        if opens {
          var newFile: Bytes;
          newFile, written := BufferWrite(temp, results);
          if written && renamed {
            file := newFile;
            if !state.Off? {
              selectedDb := -1;
              currentSize := |file|;
              aofBuf := [];
            }
            if state.WaitRewrite? { state := On; }
          }
        }
      }
      CleanupRewrite();
    }

    /** stopAppendOnly; exited is the failed write under fsync always. */
    method StopAppendOnly(now: int, results: seq<WriteResult>, truncates: bool) returns (exited: bool, n: nat)
      requires Valid() && !state.Off?
      modifies this
      ensures n <= |old(aofBuf)|
      ensures !exited ==>
                && Valid()
                && View() == Cleanup(old(View()).(file := file, buf := old(aofBuf)[n..], state := Off,
                                                  selected := None))
      ensures !exited && old(state).On? ==> file == old(file) + old(aofBuf)[..n]
      ensures !exited && old(state).WaitRewrite? ==> Scribbled(old(file), old(aofBuf), old(currentSize), n, file)
    {
      hide Flatten, Scribbled;
      var out: FlushOutcome;
      out, n := Flush(true, false, now, results, truncates);
      exited := out.Exited?;
      if exited { return; }
      selectedDb := -1;
      state := Off;
      CleanupRewrite();
    }

    /** startAppendOnly; with a saving child the rewrite is only scheduled. */
    method StartAppendOnly(opens: bool, rdbChild: bool, pipes: bool, pid: int, ghost snapshot: Bytes) returns (ok: bool)
      requires Valid() && state.Off?
      modifies this
      ensures Valid() && (ok <==> opens && (rdbChild || (pipes && pid != -1)))
      ensures ok ==> View() == if rdbChild then old(View()).(state := WaitRewrite)
                               else Forked(Cleanup(old(View())).(state := WaitRewrite), snapshot)
      ensures !ok ==> View() == if opens then Unforked(Cleanup(old(View())), pipes) else old(View())
    {
      hide Flatten;
      if !opens { return false; }
      if !rdbChild {
        CleanupRewrite();
        ok := StartRewrite(false, pipes, pid, snapshot);
        if !ok { return; }
      }
      state := WaitRewrite;
      ok := true;
    }

    // ---------- writing the buffer ----------

    /** aofWrite: retries what was interrupted or short, and gives up at an error. */
    method Write(results: seq<WriteResult>) returns (n: int)
      modifies `file
      ensures n == -1 || 0 <= n <= |aofBuf|
      ensures file == old(file) + aofBuf[..if n < 0 then 0 else n]
      ensures n == 0 ==> aofBuf == []
      ensures results == [] && aofBuf != [] ==> n == -1
    {
      n := 0;
      var k := 0;
      while n < |aofBuf|
        invariant 0 <= n <= |aofBuf| && k <= |results| && file == old(file) + aofBuf[..n]
        invariant results == [] ==> n == 0
        decreases |results| - k
      {
        if k == |results| { return if n > 0 then n else -1; }
        var r := results[k];
        k := k + 1;
        match r {
          case Interrupted =>
          case Error => return if n > 0 then n else -1;
          case Wrote(m) =>
            var w := if m < |aofBuf| - n then m else |aofBuf| - n;
            file := file + aofBuf[n..n + w];
            assert aofBuf[..n] + aofBuf[n..n + w] == aofBuf[..n + w];
            n := n + w;
        }
      }
    }

    /** The part of flushAppendOnlyFile after the decision to write.  With the log off the descriptor is
        closed and the write fails. */
    method WriteOut(results: seq<WriteResult>, truncates: bool) returns (out: FlushOutcome, n: nat)
      requires Valid() && aofBuf != []
      modifies `file, `aofBuf, `currentSize, `flushPostponedStart, `lastWriteOk
      ensures n <= |old(aofBuf)|
      ensures out.Complete? || out.Incomplete? || out.Exited?
      ensures !out.Exited? ==> Valid() && aofBuf == old(aofBuf)[n..]
      ensures state.On? ==> file == old(file) + old(aofBuf)[..n]
      ensures state.WaitRewrite? ==> Scribbled(old(file), old(aofBuf), old(currentSize), n, file)
      ensures state.Off? ==> n == 0 && file == old(file)
      ensures out.Exited? ==> policy.Always? && n < |old(aofBuf)|
      ensures out.Complete? ==> n == |old(aofBuf)| && lastWriteOk
      ensures out.Incomplete? ==> n < |old(aofBuf)| && !lastWriteOk
    {
      hide Flatten;
      var nwritten := Write(if state.Off? then [] else results);
      flushPostponedStart := 0;
      if nwritten != |aofBuf| {
        if nwritten != -1 && truncates {
          file := Resized(file, currentSize);
          assert state.On? ==> file == old(file);
          nwritten := -1;
        }
        n := if nwritten > 0 then nwritten else 0;
        if policy.Always? { return Exited, n; }
        lastWriteOk := false;
        if nwritten > 0 {
          currentSize := currentSize + nwritten;
          aofBuf := aofBuf[nwritten..];
        }
        return Incomplete, n;
      }
      lastWriteOk := true;
      currentSize := currentSize + nwritten;
      n := |aofBuf|;
      aofBuf := [];
      out := Complete;
    }

    /** flushAppendOnlyFile: with the log on nothing fed is lost or written twice, whatever the disk
        does, and the recorded size is the size of the file.  While the first rewrite is awaited the
        recorded size is stale, and only the buffer is accounted for. */
    method Flush(force: bool, syncInProgress: bool, now: int, results: seq<WriteResult>, truncates: bool)
      returns (out: FlushOutcome, n: nat)
      requires Valid()
      modifies `file, `aofBuf, `currentSize, `flushPostponedStart, `lastWriteOk
      ensures n <= |old(aofBuf)|
      ensures !out.Exited? ==> Valid() && View() == old(View()).(file := file, buf := old(aofBuf)[n..])
      ensures state.On? ==> file == old(file) + old(aofBuf)[..n]
      ensures state.On? && !out.Exited? ==> View() == Flushed(old(View()), n)
      ensures state.WaitRewrite? ==> Scribbled(old(file), old(aofBuf), old(currentSize), n, file)
      ensures state.Off? ==> n == 0 && file == old(file)
      ensures out.Exited? ==> policy.Always? && n < |old(aofBuf)|
      ensures out.Complete? ==> n == |old(aofBuf)| && lastWriteOk
      ensures out.Incomplete? ==> n < |old(aofBuf)| && !lastWriteOk
      ensures out.Nothing? <==> old(aofBuf) == []
      ensures out.Postponed? <==> old(aofBuf) != [] && policy.EverySecond? && !force && syncInProgress
                                  && (old(flushPostponedStart) == 0 || now - old(flushPostponedStart) < 2)
    {
      hide Flatten;
      n := 0;
      assert aofBuf[..0] == [] && aofBuf[0..] == aofBuf && file + [] == file;
      if aofBuf == [] { return Nothing, 0; }
      if policy.EverySecond? && !force && syncInProgress {
        if flushPostponedStart == 0 {
          flushPostponedStart := now;
          return Postponed, 0;
        } else if now - flushPostponedStart < 2 {
          return Postponed, 0;
        }
      }
      out, n := WriteOut(results, truncates);
    }
  }

  /** ftruncate to a size: the bytes beyond are dropped, missing ones read as zero. */
  function Resized(bytes: Bytes, size: nat): Bytes {
    if size <= |bytes| then bytes[..size] else bytes + seq(size - |bytes|, _ => 0)
  }

  /** What a flush makes of a file whose recorded size means nothing: n bytes of the buffer are added, or
      some are added and the file is cut or filled up to that size. */
  ghost predicate Scribbled(file: Bytes, buf: Bytes, size: nat, n: nat, file': Bytes)
    requires n <= |buf|
  {
    || file' == file + buf[..n]
    || (n == 0 && exists m: nat | m <= |buf| :: file' == Resized(file + buf[..m], size))
  }

  predicate Aborts(argv: Argv) {
    Is(argv, SET) && |argv| > 3 && Scan(argv, 3, EX, None).Some? && Scan(argv, 3, PX, None).Some?
  }

  /** All commands of an event appended at once. */
  function Propagated(a: Aof, db: nat, fed: seq<Argv>, t: int): Aof {
    if a.state.Off? || fed == [] then a
    else Append(a, EncodeLog(SelectCmds(a.selected, db) + TranslateAll(fed, t)), Some(db))
  }

  lemma NonePropagated(a: Aof, db: nat, fed: seq<Argv>, t: int)
    ensures Propagated(a, db, fed[..0], t) == a
    ensures a.state.Off? ==> Propagated(a, db, fed, t) == a
  {
  }

  lemma NextPropagated(a: Aof, db: nat, fed: seq<Argv>, i: nat, t: int)
    requires i < |fed| && !a.state.Off?
    ensures var b := Propagated(a, db, fed[..i], t);
            Propagated(a, db, fed[..i + 1], t)
            == Append(b, EncodeLog(SelectCmds(b.selected, db) + Translate(fed[i], t)), Some(db))
  {
    hide EncodeLog, Translate, TranslateAll, SelectCmds;
    var sel, all, one := SelectCmds(a.selected, db), TranslateAll(fed[..i], t), Translate(fed[i], t);
    assert fed[..i + 1] == fed[..i] + [fed[i]];
    TranslateFed(fed[..i], fed[i], t);
    NoneTranslated(t);
    SameSelected(db);
    if i == 0 {
      assert all + one == one;
    } else {
      assert sel + (all + one) == sel + all + one;
      EncodeLogAppend(sel + all, one);
      assert [] + one == one;
      var b := Propagated(a, db, fed[..i], t);
      AppendTwice(a, EncodeLog(sel + all), EncodeLog(one), db);
    }
  }

  lemma NoneTranslated(t: int)
    ensures TranslateAll([], t) == []
  {
  }

  lemma SameSelected(db: nat)
    ensures SelectCmds(Some(db), db) == []
  {
  }

  lemma AppendTwice(a: Aof, x: Bytes, y: Bytes, db: nat)
    ensures Append(Append(a, x, Some(db)), y, Some(db)) == Append(a, x + y, Some(db))
  {
    assert a.buf + (x + y) == a.buf + x + y;
    assert a.rewriteBuf + (x + y) == a.rewriteBuf + x + y;
  }

  /** What one event of a transaction feeds. */
  datatype Batch = Batch(db: nat, fed: seq<Argv>, t: int)

  function AllPropagated(a: Aof, batches: seq<Batch>): Aof
    decreases |batches|
  {
    if batches == [] then a
    else AllPropagated(Propagated(a, batches[0].db, batches[0].fed, batches[0].t), batches[1..])
  }

  function Executed(a: Aof, db: nat, batches: seq<Batch>, execDb: nat, t: int): Aof {
    Propagated(AllPropagated(Propagated(a, db, [[MULTI]], t), batches), execDb, [[EXEC]], t)
  }

  function Batches(fx: Effect, dbs: seq<Db>, evs: seq<Event>): seq<Batch>
    requires AllFeedable(evs, |dbs|)
    decreases |evs|
  {
    if evs == [] then []
    else
      [Batch(evs[0].db, LiveEvent(fx, dbs[evs[0].db], evs[0]).fed, evs[0].now)]
      + Batches(fx, EventDbs(fx, dbs, evs[0]), evs[1..])
  }

  lemma NeverAborts()
    ensures !Aborts([[MULTI]][0]) && !Aborts([[EXEC]][0])
  {
  }

  lemma AppendMore(a: Aof, x: seq<Argv>, sel: Option<nat>, y: seq<Argv>, sel': Option<nat>)
    ensures Append(Append(a, EncodeLog(x), sel), EncodeLog(y), sel') == Append(a, EncodeLog(x + y), sel')
  {
    hide EncodeLog;
    EncodeLogAppend(x, y);
    Assoc(a.buf, EncodeLog(x), EncodeLog(y));
    Assoc(a.rewriteBuf, EncodeLog(x), EncodeLog(y));
  }

  lemma AppendNone(a: Aof)
    ensures Append(a, EncodeLog([]), a.selected) == a
  {
    NoBytes();
    assert a.buf + [] == a.buf && a.rewriteBuf + [] == a.rewriteBuf;
  }

  lemma EventPropagated(fx: Effect, a: Aof, dbs: seq<Db>, ev: Event)
    requires ev.db < |dbs| && !a.state.Off?
    ensures Propagated(a, ev.db, LiveEvent(fx, dbs[ev.db], ev).fed, ev.now)
            == Append(a, EncodeLog(EventCmds(fx, dbs, a.selected, ev)), EventSelects(fx, dbs, a.selected, ev))
  {
    hide EncodeLog, LiveEvent, TranslateAll, SelectCmds;
    AppendNone(a);
  }

  lemma {:induction false} EventsPropagated(fx: Effect, a: Aof, dbs: seq<Db>, evs: seq<Event>)
    requires AllFeedable(evs, |dbs|) && !a.state.Off?
    ensures AllPropagated(a, Batches(fx, dbs, evs))
            == Append(a, EncodeLog(EventsCmds(fx, dbs, a.selected, evs)), EventsSelects(fx, dbs, a.selected, evs))
    decreases |evs|
  {
    hide EncodeLog, LiveEvent, EventCmds, EventSelects, EventDbs, Propagated, Plain, Clashes, Is;
    if evs == [] {
      AppendNone(a);
    } else {
      var ev, dbs' := evs[0], EventDbs(fx, dbs, evs[0]);
      EventPropagated(fx, a, dbs, ev);
      var cmds, sel := EventCmds(fx, dbs, a.selected, ev), EventSelects(fx, dbs, a.selected, ev);
      EventsPropagated(fx, Append(a, EncodeLog(cmds), sel), dbs', evs[1..]);
      assert Batches(fx, dbs, evs)[1..] == Batches(fx, dbs', evs[1..]);
      AppendMore(a, cmds, sel, EventsCmds(fx, dbs', sel, evs[1..]), EventsSelects(fx, dbs', sel, evs[1..]));
    }
  }

  /** MULTI and EXEC are fed as they are. */
  lemma BracketPropagated(a: Aof, db: nat, name: Bytes, t: int)
    requires !a.state.Off? && (name == MULTI || name == EXEC)
    ensures Propagated(a, db, [[name]], t) == Append(a, EncodeLog(SelectCmds(a.selected, db) + [[name]]), Some(db))
  {
    hide EncodeLog, SelectCmds;
    var cmds: seq<Argv> := [[name]];
    assert Translate([name], t) == [[name]];
    assert cmds[1..] == [];
    assert TranslateAll(cmds, t) == [[name]] + [] == cmds;
  }

  /** What the server does for a piece of work is the step of the state machine. */
  lemma PropagatedIsExecute(fx: Effect, s: System, w: Work, t: int)
    requires FeedableWork(w, |s.dbs|)
    ensures w.Single? ==>
              ExecuteStep(fx, s, w).aof == Propagated(s.aof, w.ev.db, LiveEvent(fx, s.dbs[w.ev.db], w.ev).fed, w.ev.now)
    ensures w.Transaction? ==>
              ExecuteStep(fx, s, w).aof == Executed(s.aof, w.db, Batches(fx, s.dbs, w.body), w.execDb, t)
  {
    hide EncodeLog, LiveEvent, EventCmds, EventSelects, EventDbs, Marked, Plain, Clashes, Is, Executed, Propagated;
    if s.aof.state.Off? {
      OffPropagates(fx, s.aof, s.dbs, w, t);
    } else if w.Single? {
      EventPropagated(fx, s.aof, s.dbs, w.ev);
    } else {
      TransactionExecuted(fx, s.aof, s.dbs, w, t);
    }
  }

  lemma {:induction false} OffKeeps(a: Aof, batches: seq<Batch>)
    requires a.state.Off?
    ensures AllPropagated(a, batches) == a
  {
    if batches != [] { OffKeeps(a, batches[1..]); }
  }

  lemma OffPropagates(fx: Effect, a: Aof, dbs: seq<Db>, w: Work, t: int)
    requires a.state.Off? && FeedableWork(w, |dbs|)
    ensures w.Single? ==> Propagated(a, w.ev.db, LiveEvent(fx, dbs[w.ev.db], w.ev).fed, w.ev.now) == a
    ensures w.Transaction? ==> Executed(a, w.db, Batches(fx, dbs, w.body), w.execDb, t) == a
  {
    if w.Transaction? { OffKeeps(a, Batches(fx, dbs, w.body)); }
  }

  lemma TransactionExecuted(fx: Effect, a: Aof, dbs: seq<Db>, w: Work, t: int)
    requires w.Transaction? && FeedableWork(w, |dbs|) && !a.state.Off?
    ensures Executed(a, w.db, Batches(fx, dbs, w.body), w.execDb, t)
            == Append(a, EncodeLog(WorkCmds(fx, dbs, a.selected, w)), Some(w.execDb))
  {
    hide EncodeLog, EventsCmds, EventsSelects, Propagated, AllPropagated, Batches, SelectCmds, Plain, Clashes, Is;
    var open := SelectCmds(a.selected, w.db) + [[MULTI]];
    var cmds, sel := EventsCmds(fx, dbs, Some(w.db), w.body), EventsSelects(fx, dbs, Some(w.db), w.body);
    var close := SelectCmds(sel, w.execDb);
    BracketPropagated(a, w.db, MULTI, t);
    EventsPropagated(fx, Append(a, EncodeLog(open), Some(w.db)), dbs, w.body);
    AppendMore(a, open, Some(w.db), cmds, sel);
    BracketPropagated(Append(a, EncodeLog(open + cmds), sel), w.execDb, EXEC, t);
    AppendMore(a, open + cmds, sel, close + [[EXEC]], Some(w.execDb));
    assert open + cmds + (close + [[EXEC]]) == open + (cmds + close) + [[EXEC]];
  }

  lemma SelectEncoded(selected: Option<nat>, db: nat)
    ensures selected == Some(db) ==> EncodeLog(SelectCmds(selected, db)) == []
    ensures selected != Some(db) ==> EncodeLog(SelectCmds(selected, db)) == EncodeCommand([SELECT, EncodeInt(db)])
  {
    hide EncodeCommand, EncodeInt;
    OneEncoded([SELECT, EncodeInt(db)]);
  }

  /** catAppendOnlyExpireAtCommand. */
  method CatExpireAt(dst: Bytes, like: Argv, key: Bytes, param: Bytes, t: int) returns (out: Bytes)
    ensures out == dst + EncodeCommand(ExpireAt(like, key, param, t))
  {
    var when := Strtoll(param);
    if Is(like, EXPIRE) || Is(like, SETEX) || Is(like, EXPIREAT) { when := when * 1000; }
    if Is(like, EXPIRE) || Is(like, PEXPIRE) || Is(like, SETEX) || Is(like, PSETEX) { when := when + t; }
    out := CatGenericCommand(dst, [PEXPIREAT, key, EncodeInt(when)]);
  }

  /** The loop over the options of SET. */
  method ScanOptions(argv: Argv) returns (exarg: Option<Bytes>, pxarg: Option<Bytes>)
    requires |argv| > 3
    ensures exarg == Scan(argv, 3, EX, None) && pxarg == Scan(argv, 3, PX, None)
  {
    exarg, pxarg := None, None;
    for i := 3 to |argv|
      invariant Scan(argv, i, EX, exarg) == Scan(argv, 3, EX, None)
      invariant Scan(argv, i, PX, pxarg) == Scan(argv, 3, PX, None)
    {
      var next := if i + 1 < |argv| then Some(argv[i + 1]) else None;
      if Upper(argv[i]) == EX { exarg := next; }
      if Upper(argv[i]) == PX { pxarg := next; }
    }
  }

  /** The middle of feedAppendOnlyFile: the command itself or what it is translated to. */
  method CatTranslated(dst: Bytes, argv: Argv, t: int) returns (out: Bytes, aborted: bool)
    ensures aborted <==> Aborts(argv)
    ensures !aborted ==> out == dst + EncodeLog(Translate(argv, t))
  {
    hide EncodeLog, EncodeCommand, Scan, Upper, ExpireAt;
    MoreNames();
    aborted := false;
    if IsExpire(argv) && !Is(argv, PEXPIREAT) {
      OneEncoded(ExpireAt(argv, argv[1], argv[2], t));
      out := CatExpireAt(dst, argv, argv[1], argv[2], t);
    } else if IsSetEx(argv) {
      TwoEncoded([SET, argv[1], argv[3]], ExpireAt(argv, argv[1], argv[2], t));
      out := CatGenericCommand(dst, [SET, argv[1], argv[3]]);
      out := CatExpireAt(out, argv, argv[1], argv[2], t);
    } else if Is(argv, SET) && |argv| > 3 {
      out, aborted := CatSet(dst, argv, t);
    } else {
      OneEncoded(argv);
      out := CatGenericCommand(dst, argv);
    }
  }

  method CatSet(dst: Bytes, argv: Argv, t: int) returns (out: Bytes, aborted: bool)
    requires |argv| > 3
    ensures aborted <==> Scan(argv, 3, EX, None).Some? && Scan(argv, 3, PX, None).Some?
    ensures !aborted ==> out == dst + EncodeLog(SetParts(argv, Scan(argv, 3, EX, None), Scan(argv, 3, PX, None), t))
  {
    hide EncodeLog, EncodeCommand, Scan, Upper, ExpireAt, SetParts;
    out := CatGenericCommand(dst, argv[..3]);
    var exarg, pxarg := ScanOptions(argv);
    aborted := exarg.Some? && pxarg.Some?;
    if aborted { return; }
    OneEncoded(argv[..3]);
    if exarg.Some? {
      OnePart(argv, exarg.value, t);
      TwoEncoded(argv[..3], ExpireAt([EXPIRE], argv[1], exarg.value, t));
      out := CatExpireAt(out, [EXPIRE], argv[1], exarg.value, t);
    } else if pxarg.Some? {
      OnePart(argv, pxarg.value, t);
      TwoEncoded(argv[..3], ExpireAt([PEXPIRE], argv[1], pxarg.value, t));
      out := CatExpireAt(out, [PEXPIRE], argv[1], pxarg.value, t);
    } else {
      OnePart(argv, [], t);
    }
  }

  lemma TwoEncoded(a: Argv, b: Argv)
    ensures EncodeLog([a, b]) == EncodeCommand(a) + EncodeCommand(b)
  {
    hide EncodeCommand;
    var cmds := [a, b];
    assert cmds[1..] == [b];
    OneEncoded(b);
  }

  /** aofReadDiffFromParent: reads until the pipe is empty, at most 65536 bytes at a time. */
  method ReadDiff(pipe: Bytes, diff: Bytes) returns (all: Bytes, total: nat)
    ensures all == diff + pipe && total == |pipe|
  {
    all, total := diff, 0;
    assert pipe[..0] == [];
    while total < |pipe|
      invariant total <= |pipe| && all == diff + pipe[..total]
    {
      var nread := if |pipe| - total < 65536 then |pipe| - total else 65536;
      assert pipe[..total] + pipe[total..total + nread] == pipe[..total + nread];
      all := all + pipe[total..total + nread];
      total := total + nread;
    }
    assert pipe[..total] == pipe;
  }

  lemma NoBlocks()
    ensures Flatten([]) == []
  {
  }

  lemma SentNothing(a: Aof)
    ensures Sent(a, 0) == a
  {
    assert a.data + a.rewriteBuf[..0] == a.data && a.rewriteBuf[0..] == a.rewriteBuf;
  }

  /** Moving a little more from the first block into the pipe. */
  lemma SentMore(a: Aof, b: Aof, n: nat, take: nat, blocks: seq<Bytes>)
    requires n <= |a.rewriteBuf| && b == Sent(a, n) && b.rewriteBuf == Flatten(blocks) && !b.stop
    requires blocks != [] && take <= |blocks[0]|
    ensures n + take <= |a.rewriteBuf|
    ensures Sent(a, n + take)
            == b.(data := b.data + blocks[0][..take], rewriteBuf := Flatten(blocks[0 := blocks[0][take..]]))
  {
    var block := blocks[0];
    var after := blocks[0 := block[take..]];
    assert after[1..] == blocks[1..];
    assert Flatten(blocks) == block[..take] + Flatten(after);
    assert b.rewriteBuf[..take] == block[..take] && b.rewriteBuf[take..] == Flatten(after);
    assert a.rewriteBuf[..n + take] == a.rewriteBuf[..n] + b.rewriteBuf[..take];
    assert a.data + (a.rewriteBuf[..n] + b.rewriteBuf[..take]) == b.data + block[..take];
  }
}
