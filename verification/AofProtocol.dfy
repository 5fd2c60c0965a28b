/** The life of the append-only file as a state machine: commands are fed and flushed while a forked
    child rewrites the file, a pipe carries the difference, and the parent switches files. */
module AofProtocol {
  import opened Common
  import opened Resp
  import opened Dataset
  import opened AofLoader
  import opened AofRewrite
  import opened AofFeed
  import opened AofJournal

  datatype State = Off | WaitRewrite | On

  /** Where the rewriting child is: writing the snapshot and polling for the difference; having asked
      the parent to stop; having read the answer; having read the last difference; having renamed
      its file and exited with 0; or gone in any other way. */
  datatype Phase = Saving | Asked | Acked | Drained | Finished | Failed

  datatype Child = Child(phase: Phase, diff: Bytes, temp: Bytes)

  /** The parent's fields, the three pipes and the child.  file is what the file name holds. */
  datatype Aof = Aof(
    state: State,
    selected: Option<nat>,
    file: Bytes,
    buf: Bytes,
    rewriteBuf: Bytes,
    stop: bool,
    data: Bytes,
    ask: bool,
    ack: bool,
    child: Option<Child>)

  // ---------- the parent ----------

  /** feedAppendOnlyFile with the bytes it has built. */
  function Append(a: Aof, bytes: Bytes, selected: Option<nat>): Aof {
    a.(selected := selected,
       buf := if a.state.On? then a.buf + bytes else a.buf,
       rewriteBuf := if a.child.Some? then a.rewriteBuf + bytes else a.rewriteBuf)
  }

  /** flushAppendOnlyFile when n bytes stay in the file. */
  function Flushed(a: Aof, n: nat): Aof
    requires n <= |a.buf|
  {
    a.(file := a.file + a.buf[..n], buf := a.buf[n..])
  }

  /** rewriteAppendOnlyFileBackground, with fresh pipes. */
  function Forked(a: Aof, snapshot: Bytes): Aof {
    a.(selected := None, stop := false, data := [], ask := false, ack := false,
       child := Some(Child(Saving, [], snapshot)))
  }

  /** rewriteAppendOnlyFileBackground when the pipes cannot be made, or the fork fails after that. */
  function Unforked(a: Aof, pipes: bool): Aof {
    if pipes then a.(stop := false, data := [], ask := false, ack := false) else a
  }

  /** aofChildWriteDiffData when the pipe takes n bytes. */
  function Sent(a: Aof, n: nat): Aof
    requires n <= |a.rewriteBuf|
  {
    if a.stop then a else a.(data := a.data + a.rewriteBuf[..n], rewriteBuf := a.rewriteBuf[n..])
  }

  /** aofChildPipeReadable. */
  function Answered(a: Aof, acked: bool): Aof { a.(ask := false, stop := true, ack := acked) }

  /** The cleanup of the handler and of killAppendOnlyChild. */
  function Cleanup(a: Aof): Aof { a.(child := None, rewriteBuf := [], data := [], ask := false, ack := false) }

  /** The handler's success branch after the rename. */
  function Installed(a: Aof, temp: Bytes): Aof {
    var b := a.(file := temp + a.rewriteBuf);
    if a.state.Off? then b else b.(selected := None, buf := [], state := On)
  }

  /** backgroundRewriteDoneHandler; the flags say which of open, write and rename succeeded. */
  function Done(a: Aof, opens: bool, written: bool, renamed: bool): Aof
    requires a.child.Some?
  {
    var c := a.child.value;
    Cleanup(if c.phase.Finished? && opens && written && renamed then Installed(a, c.temp) else a)
  }

  // ---------- the whole system ----------

  /** With the live databases, and as history: the commands that make up file and buffer with the
      databases along them, those of the child's snapshot, those fed since the fork with the databases
      along both, and the databases at the fork. */
  datatype System = System(
    aof: Aof,
    dbs: seq<Db>,
    log: seq<Argv>,
    marks: seq<Mark>,
    snapshot: seq<Argv>,
    diff: seq<Argv>,
    diffMarks: seq<Mark>,
    forked: seq<Db>)

  /** Scribble is a flush before the first rewrite is done: what a flush cut short by stopping the log
      has left in the buffer goes to a file that is about to be replaced.  Restart is a crash, which
      loses the buffer, followed by a load that truncates. */
  datatype Action =
    | Execute(w: Work)
    | Flush(n: nat)
    | Scribble(file: Bytes, n: nat)
    | Fork(imgs: seq<Image>)
    | ForkFails(pipes: bool)
    | Send(n: nat)
    | Answer(acked: bool)
    | ChildRead(n: nat)
    | ChildAsk
    | ChildGetAck
    | ChildDrain
    | ChildFinish
    | ChildFail
    | Reap(opens: bool, written: bool, renamed: bool)
    | Stop(file: Bytes, n: nat)
    | Start(imgs: seq<Image>, rdbChild: bool)
    | StartFails(pipes: bool)
    | Restart

  /** The images the child walks: one per database, holding what the database holds. */
  ghost predicate Pictures(imgs: seq<Image>, dbs: seq<Db>) {
    && |imgs| == |dbs|
    && forall i | 0 <= i < |imgs| :: ValidImage(imgs[i]) && Proper(imgs[i]) && DbOf(imgs[i]) == dbs[i]
  }

  predicate InPhase(a: Aof, p: Phase) { a.child.Some? && a.child.value.phase == p }

  ghost predicate Writable(cmds: seq<Argv>) { forall i | 0 <= i < |cmds| :: Encodable(cmds[i]) }

  /** The file does not end inside a command of an open transaction. */
  ghost predicate EndsCleanly(fx: Effect, s: System) {
    s.dbs != [] && CleanCut(fx, s.log, |s.aof.file|, Blank(|s.dbs|))
  }

  ghost predicate Enabled(fx: Effect, s: System, act: Action) {
    var a := s.aof;
    match act
    case Execute(w) => FeedableWork(w, |s.dbs|)
    case Flush(n) => a.state.On? && n <= |a.buf|
    case Scribble(_, n) => a.state.WaitRewrite? && n <= |a.buf|
    case Fork(imgs) => a.child.None? && Pictures(imgs, s.dbs)
    case ForkFails(_) => a.child.None?
    case Send(n) => a.child.Some? && n <= |a.rewriteBuf|
    case Answer(_) => a.child.Some? && a.ask
    case ChildRead(n) => InPhase(a, Saving) && n <= |a.data|
    case ChildAsk => InPhase(a, Saving)
    case ChildGetAck => InPhase(a, Asked) && a.ack
    case ChildDrain => InPhase(a, Acked)
    case ChildFinish => InPhase(a, Drained)
    case ChildFail => a.child.Some? && !InPhase(a, Finished)
    case Reap(_, _, _) => InPhase(a, Finished) || InPhase(a, Failed)
    case Stop(file, n) => !a.state.Off? && n <= |a.buf| && (a.state.On? ==> file == a.file + a.buf[..n])
    case Start(imgs, rdbChild) => a.state.Off? && Pictures(imgs, s.dbs) && (rdbChild ==> a.child.None?)
    case StartFails(_) => a.state.Off?
    case Restart => a.state.On? && Writable(s.log) && EndsCleanly(fx, s)
  }

  function Moved(a: Aof, p: Phase, diff: Bytes, temp: Bytes): Aof { a.(child := Some(Child(p, diff, temp))) }

  function ForkSystem(s: System, a: Aof, imgs: seq<Image>): System {
    s.(aof := Forked(a, EncodeLog(RewriteCmds(imgs))), snapshot := RewriteCmds(imgs), diff := [],
       diffMarks := [Mark(|RewriteCmds(imgs)|, s.dbs, None)], forked := s.dbs)
  }

  ghost function ExecuteStep(fx: Effect, s: System, w: Work): System
    requires FeedableWork(w, |s.dbs|)
  {
    var s', sel := s.(dbs := WorkDbs(fx, s.dbs, w)), s.aof.selected;
    if s.aof.state.Off? then s'
    else
      var cmds := WorkCmds(fx, s.dbs, sel, w);
      s'.(aof := Append(s.aof, EncodeLog(cmds), WorkSelects(fx, s.dbs, sel, w)),
          log := if s.aof.state.On? then s.log + cmds else s.log,
          marks := if s.aof.state.On? then Marked(fx, s.log, s.marks, s.dbs, sel, w) else s.marks,
          diff := s.diff + cmds,
          diffMarks := Marked(fx, s.snapshot + s.diff, s.diffMarks, s.dbs, sel, w))
  }

  /** What loadAppendOnlyFile makes of the file, and the server that goes on from there. */
  ghost function Restarted(fx: Effect, s: System): System
    requires s.dbs != []
  {
    var a, blank := s.aof, Blank(|s.dbs|);
    match Load(fx, a.file, blank, true)
    case Fatal => s
    case Loaded(r) => Reborn(fx, s, a.file, r)
    case Truncated(r, offset) => Reborn(fx, s, if offset <= |a.file| then a.file[..offset] else a.file, r)
  }

  ghost function Reborn(fx: Effect, s: System, file: Bytes, r: Session): System
    requires s.dbs != []
  {
    var m := KeptCmds(fx, s.log, |s.aof.file|, Blank(|s.dbs|));
    s.(aof := Aof(On, None, file, [], [], false, [], false, false, None), dbs := r.dbs,
       log := s.log[..m], marks := [Mark(m, r.dbs, None)])
  }

  predicate Switches(a: Aof, act: Action) {
    act.Reap? && !a.state.Off? && InPhase(a, Finished) && act.opens && act.written && act.renamed
  }

  ghost function Step(fx: Effect, s: System, act: Action): System
    requires Enabled(fx, s, act)
  {
    var a := s.aof;
    match act
    case Execute(w) => ExecuteStep(fx, s, w)
    case Flush(n) => s.(aof := Flushed(a, n))
    case Scribble(file, n) => s.(aof := a.(file := file, buf := a.buf[n..]))
    case Fork(imgs) => ForkSystem(s, a, imgs)
    case ForkFails(pipes) => s.(aof := Unforked(a, pipes))
    case Send(n) => s.(aof := Sent(a, n))
    case Answer(acked) => s.(aof := Answered(a, acked))
    case ChildRead(n) =>
      var c := a.child.value;
      s.(aof := Moved(a.(data := a.data[n..]), Saving, c.diff + a.data[..n], c.temp))
    case ChildAsk => s.(aof := Moved(a.(ask := true), Asked, a.child.value.diff, a.child.value.temp))
    case ChildGetAck => s.(aof := Moved(a.(ack := false), Acked, a.child.value.diff, a.child.value.temp))
    case ChildDrain => s.(aof := Moved(a.(data := []), Drained, a.child.value.diff + a.data, a.child.value.temp))
    case ChildFinish => s.(aof := Moved(a, Finished, a.child.value.diff, a.child.value.temp + a.child.value.diff))
    case ChildFail => s.(aof := Moved(a, Failed, a.child.value.diff, a.child.value.temp))
    case Reap(opens, written, renamed) =>
      var s' := s.(aof := Done(a, opens, written, renamed));
      if Switches(a, act) then s'.(log := s.snapshot + s.diff, marks := s.diffMarks) else s'
    case Stop(file, n) => s.(aof := Cleanup(a.(file := file, buf := a.buf[n..], state := Off, selected := None)))
    case Start(imgs, rdbChild) =>
      if rdbChild then s.(aof := a.(state := WaitRewrite))
      else ForkSystem(s, Cleanup(a).(state := WaitRewrite), imgs)
    case StartFails(pipes) => s.(aof := Unforked(Cleanup(a), pipes))
    case Restart => Restarted(fx, s)
  }

  // ---------- what every step keeps ----------

  /** Where the bytes fed since the fork are. */
  predicate Accounted(a: Aof, c: Child, snapshot: Bytes, diff: Bytes) {
    match c.phase
    case Failed => true
    case Finished => c.temp + a.rewriteBuf == snapshot + diff && a.stop
    case Saving => c.temp == snapshot && c.diff + a.data + a.rewriteBuf == diff && !a.stop && !a.ask && !a.ack
    case Asked => c.temp == snapshot && c.diff + a.data + a.rewriteBuf == diff && (a.ack ==> a.stop)
    case Acked => c.temp == snapshot && c.diff + a.data + a.rewriteBuf == diff && a.stop
    case Drained => c.temp == snapshot && c.diff + a.rewriteBuf == diff && a.data == [] && a.stop
  }

  ghost predicate ChildInv(fx: Effect, s: System, c: Child)
    requires s.dbs != []
  {
    && Accounted(s.aof, c, EncodeLog(s.snapshot), EncodeLog(s.diff))
    && |s.forked| == |s.dbs| && At(fx, |s.dbs|, s.snapshot).dbs == s.forked
    && (s.aof.state.Off? ==> s.diff == [])
    && (!s.aof.state.Off? ==> Journal(fx, s.snapshot + s.diff, s.diffMarks, s.dbs, s.aof.selected))
  }

  /** File and buffer are the log, and the file reaches at least to its first mark. */
  ghost predicate LogInv(fx: Effect, s: System) {
    && s.aof.file + s.aof.buf == EncodeLog(s.log)
    && Journal(fx, s.log, s.marks, s.dbs, s.aof.selected)
    && s.marks[0].at <= |s.log| && |EncodeLog(s.log[..s.marks[0].at])| <= |s.aof.file|
  }

  ghost predicate Inv(fx: Effect, s: System) {
    && s.dbs != []
    && (s.aof.state.On? ==> LogInv(fx, s))
    && (s.aof.child.None? ==> s.aof.rewriteBuf == [])
    && (s.aof.child.Some? ==> ChildInv(fx, s, s.aof.child.value))
  }

  lemma Assoc(a: Bytes, b: Bytes, c: Bytes)
    ensures a + (b + c) == a + b + c
  {
  }

  lemma FirstMark(fx: Effect, cmds: seq<Argv>, marks: seq<Mark>, dbs: seq<Db>, selected: Option<nat>)
    requires Journal(fx, cmds, marks, dbs, selected)
    ensures marks != [] && marks[0].at <= |cmds|
  {
    hide At, NotNested, InStep;
    assert MarkOk(fx, |dbs|, cmds, marks[0]);
  }

  lemma LogGrows(fx: Effect, s: System, w: Work)
    requires LogInv(fx, s) && s.dbs != [] && s.aof.state.On? && FeedableWork(w, |s.dbs|)
    ensures LogInv(fx, ExecuteStep(fx, s, w))
  {
    hide Journal, EncodeLog, WorkCmds, WorkSelects, WorkDbs, FeedableWork;
    var a := s.aof;
    var cmds := WorkCmds(fx, s.dbs, a.selected, w);
    JournalGrows(fx, s.log, s.marks, s.dbs, a.selected, w);
    FirstMark(fx, s.log, s.marks, s.dbs, a.selected);
    EncodeLogAppend(s.log, cmds);
    Assoc(a.file, a.buf, EncodeLog(cmds));
    assert (s.log + cmds)[..s.marks[0].at] == s.log[..s.marks[0].at];
  }

  lemma ExecuteKeepsInv(fx: Effect, s: System, w: Work)
    requires Inv(fx, s) && FeedableWork(w, |s.dbs|)
    ensures Inv(fx, ExecuteStep(fx, s, w))
  {
    hide Journal, EncodeLog, WorkCmds, WorkSelects, WorkDbs, Marked, FeedableWork, LogInv, At;
    var a := s.aof;
    if !a.state.Off? {
      var cmds := WorkCmds(fx, s.dbs, a.selected, w);
      if a.state.On? { LogGrows(fx, s, w); }
      if a.child.Some? {
        JournalGrows(fx, s.snapshot + s.diff, s.diffMarks, s.dbs, a.selected, w);
        assert s.snapshot + s.diff + cmds == s.snapshot + (s.diff + cmds);
        EncodeLogAppend(s.diff, cmds);
        AccountedGrows(a, a.child.value, EncodeLog(s.snapshot), EncodeLog(s.diff), EncodeLog(cmds));
      }
    }
  }

  lemma AccountedGrows(a: Aof, c: Child, snapshot: Bytes, diff: Bytes, bytes: Bytes)
    requires Accounted(a, c, snapshot, diff)
    ensures Accounted(a.(rewriteBuf := a.rewriteBuf + bytes), c, snapshot, diff + bytes)
  {
    Assoc(c.temp, a.rewriteBuf, bytes);
    Assoc(snapshot, diff, bytes);
    Assoc(c.diff + a.data, a.rewriteBuf, bytes);
    Assoc(c.diff, a.rewriteBuf, bytes);
  }

  /** The snapshot of a fork stands for the databases at the fork. */
  lemma SnapshotRepresents(fx: Effect, imgs: seq<Image>, dbs: seq<Db>)
    requires dbs != [] && Pictures(imgs, dbs)
    ensures At(fx, |dbs|, RewriteCmds(imgs)).dbs == dbs && At(fx, |dbs|, RewriteCmds(imgs)).multi.None?
  {
    hide RunAll, RewriteCmds, Proper, DbOf, ValidImage, Blank;
    RewritePreserves(fx, imgs);
    assert seq(|imgs|, i requires 0 <= i < |imgs| => DbOf(imgs[i])) == dbs;
  }

  lemma {:induction false} RewriteHasNoMulti(imgs: seq<Image>)
    ensures forall i | 0 <= i < |RewriteCmds(imgs)| :: !Is(RewriteCmds(imgs)[i], MULTI)
  {
    hide Is, ImageCmds, EncodeInt;
    if imgs != [] {
      var k := |imgs| - 1;
      RewriteHasNoMulti(imgs[..k]);
      DbHasNoMulti(k, imgs[k]);
    }
  }

  lemma DbHasNoMulti(j: nat, img: Image)
    ensures forall i | 0 <= i < |DbCmds(j, img)| :: !Is(DbCmds(j, img)[i], MULTI)
  {
    hide Is, ImageCmds, EncodeInt;
    SelectStraight(j);
    ImagePlain(img);
    var cmds := ImageCmds(img);
    forall i | 0 <= i < |cmds| ensures !Is(cmds[i], MULTI) { assert Plain(cmds[i]); }
  }

  lemma NothingNested(fx: Effect, s: Session, cmds: seq<Argv>)
    requires Valid(s) && forall i | 0 <= i < |cmds| :: !Is(cmds[i], MULTI)
    ensures NotNested(fx, s, cmds)
  {
  }

  lemma ForkKeepsInv(fx: Effect, s: System, a: Aof, imgs: seq<Image>)
    requires Inv(fx, s) && Pictures(imgs, s.dbs)
    requires a.child.None? && a.rewriteBuf == []
    requires a.file == s.aof.file && a.buf == s.aof.buf && (a.state.On? ==> s.aof.state.On?)
    ensures Inv(fx, ForkSystem(s, a, imgs))
  {
    hide RunAll, RewriteCmds, Pictures, MarkOk, StretchOk, NotNested;
    var cmds := RewriteCmds(imgs);
    SnapshotRepresents(fx, imgs, s.dbs);
    RewriteHasNoMulti(imgs);
    NothingNested(fx, Blank(|s.dbs|), cmds);
    NewJournal(fx, cmds, s.dbs, None);
    assert cmds + [] == cmds;
    NoBytes();
  }

  lemma UnforkedKeepsInv(fx: Effect, s: System, act: Action)
    requires Inv(fx, s) && Enabled(fx, s, act) && (act.ForkFails? || act.StartFails?)
    ensures Inv(fx, Step(fx, s, act))
  {
    hide Journal, EncodeLog, EndsCleanly;
  }

  lemma NoBytes()
    ensures EncodeLog([]) == []
  {
  }

  lemma ParentKeepsInv(fx: Effect, s: System, act: Action)
    requires Inv(fx, s) && Enabled(fx, s, act) && (act.Flush? || act.Scribble? || act.Send? || act.Answer?)
    ensures Inv(fx, Step(fx, s, act))
  {
    hide Journal, EncodeLog, At, EndsCleanly;
    var a := s.aof;
    match act {
      case Flush(n) => assert a.file + a.buf[..n] + a.buf[n..] == a.file + a.buf;
      case Scribble(_, _) =>
      case Send(n) =>
        var c := a.child.value;
        assert c.diff + (a.data + a.rewriteBuf[..n]) + a.rewriteBuf[n..] == c.diff + a.data + a.rewriteBuf;
      case Answer(_) =>
    }
  }

  lemma ChildKeepsInv(fx: Effect, s: System, act: Action)
    requires Inv(fx, s) && Enabled(fx, s, act)
    requires act.ChildRead? || act.ChildAsk? || act.ChildGetAck? || act.ChildDrain? || act.ChildFinish?
             || act.ChildFail?
    ensures Inv(fx, Step(fx, s, act))
  {
    hide Journal, EncodeLog, At, EndsCleanly;
    var a := s.aof;
    var c := a.child.value;
    match act {
      case ChildRead(n) => assert c.diff + a.data[..n] + a.data[n..] + a.rewriteBuf == c.diff + a.data + a.rewriteBuf;
      case ChildAsk =>
      case ChildGetAck =>
      case ChildDrain =>
      case ChildFinish => Assoc(c.temp, c.diff, a.rewriteBuf);
      case ChildFail =>
    }
  }

  /** Forgetting which database was selected is always safe. */
  lemma Unselect(fx: Effect, cmds: seq<Argv>, marks: seq<Mark>, dbs: seq<Db>, selected: Option<nat>)
    requires Journal(fx, cmds, marks, dbs, selected)
    ensures Journal(fx, cmds, marks, dbs, None)
  {
    hide At, MarkOk, StretchOk, NotNested;
  }

  lemma {:induction false} PrefixBytes(cmds: seq<Argv>, m: nat)
    requires m <= |cmds|
    ensures |EncodeLog(cmds[..m])| <= |EncodeLog(cmds)|
  {
    hide EncodeLog;
    assert cmds == cmds[..m] + cmds[m..];
    EncodeLogAppend(cmds[..m], cmds[m..]);
  }

  lemma ReapKeepsInv(fx: Effect, s: System, act: Action)
    requires Inv(fx, s) && Enabled(fx, s, act) && act.Reap?
    ensures Inv(fx, Step(fx, s, act))
  {
    hide EncodeLog, At, Journal, EndsCleanly;
    if Switches(s.aof, act) {
      var cmds := s.snapshot + s.diff;
      EncodeLogAppend(s.snapshot, s.diff);
      var f := s.aof.child.value.temp + s.aof.rewriteBuf;
      assert f + [] == f;
      Unselect(fx, cmds, s.diffMarks, s.dbs, s.aof.selected);
      FirstMark(fx, cmds, s.diffMarks, s.dbs, None);
      PrefixBytes(cmds, s.diffMarks[0].at);
    }
  }

  /** A restart continues with a prefix of the log. */
  lemma RestartKeepsInv(fx: Effect, s: System)
    requires Inv(fx, s) && Enabled(fx, s, Restart)
    ensures Inv(fx, Restarted(fx, s))
  {
    hide EncodeLog, RunAll, KeptCmds, CleanCut, Load, MarkOk, StretchOk, NotNested;
    RestartLoads(fx, s);
    var blank, k := Blank(|s.dbs|), |s.aof.file|;
    var m := KeptCmds(fx, s.log, k, blank);
    var kept := s.log[..m];
    var o := Load(fx, s.aof.file, blank, true);
    PrefixNotNested(fx, blank, s.log, m);
    NewJournal(fx, kept, o.s.dbs, None);
    assert kept[..m] == kept;
    assert s.aof.file[..k] == s.aof.file;
    KeptBytes(s, m);
  }

  lemma KeptBytes(s: System, m: nat)
    requires m <= |s.log| && |EncodeLog(s.log[..m])| <= |s.aof.file| && s.aof.file + s.aof.buf == EncodeLog(s.log)
    ensures s.aof.file[..|EncodeLog(s.log[..m])|] + [] == EncodeLog(s.log[..m])
  {
    hide EncodeLog;
    var kept, rest := EncodeLog(s.log[..m]), EncodeLog(s.log[m..]);
    assert s.log == s.log[..m] + s.log[m..];
    EncodeLogAppend(s.log[..m], s.log[m..]);
    assert s.aof.file[..|kept|] == (s.aof.file + s.aof.buf)[..|kept|] == (kept + rest)[..|kept|] == kept;
  }

  lemma RestartLoads(fx: Effect, s: System)
    requires LogInv(fx, s) && s.dbs != [] && Writable(s.log) && EndsCleanly(fx, s)
    ensures var blank, k := Blank(|s.dbs|), |s.aof.file|;
            var m := KeptCmds(fx, s.log, k, blank);
            var o := Load(fx, s.aof.file, blank, true);
            && m <= |s.log| && !o.Fatal? && o.s == RunAll(fx, blank, s.log[..m]) && o.s.multi.None?
            && (if o.Truncated? then o.offset else k) == |EncodeLog(s.log[..m])| <= k
  {
    hide EncodeLog, RunAll, KeptCmds, CleanCut, Load, MarkOk, StretchOk, NotNested;
    var k := |s.aof.file|;
    assert EncodeLog(s.log)[..k] == s.aof.file;
    CleanLoad(fx, s.log, k, Blank(|s.dbs|));
  }

  lemma PrefixNotNested(fx: Effect, s: Session, cmds: seq<Argv>, m: nat)
    requires Valid(s) && NotNested(fx, s, cmds) && m <= |cmds|
    ensures NotNested(fx, s, cmds[..m])
  {
    hide RunAll, Is;
    assert forall i | 0 <= i < m :: cmds[..m][i] == cmds[i] && cmds[..m][..i] == cmds[..i];
  }

  lemma StepKeepsInv(fx: Effect, s: System, act: Action)
    requires Inv(fx, s) && Enabled(fx, s, act)
    ensures Inv(fx, Step(fx, s, act))
  {
    hide LogInv, Accounted, Pictures, FeedableWork, ExecuteStep, ChildInv, EndsCleanly, Restarted;
    match act {
      case Execute(w) => ExecuteKeepsInv(fx, s, w);
      case Flush(_) => ParentKeepsInv(fx, s, act);
      case Scribble(_, _) => ParentKeepsInv(fx, s, act);
      case Send(_) => ParentKeepsInv(fx, s, act);
      case Answer(_) => ParentKeepsInv(fx, s, act);
      case Fork(imgs) => ForkKeepsInv(fx, s, s.aof, imgs);
      case ForkFails(_) => UnforkedKeepsInv(fx, s, act);
      case Reap(_, _, _) => ReapKeepsInv(fx, s, act);
      case Stop(_, _) =>
      case Start(imgs, rdbChild) =>
        if !rdbChild { ForkKeepsInv(fx, s, Cleanup(s.aof).(state := WaitRewrite), imgs); }
      case StartFails(_) => UnforkedKeepsInv(fx, s, act);
      case Restart => RestartKeepsInv(fx, s);
      case ChildRead(_) => ChildKeepsInv(fx, s, act);
      case ChildAsk => ChildKeepsInv(fx, s, act);
      case ChildGetAck => ChildKeepsInv(fx, s, act);
      case ChildDrain => ChildKeepsInv(fx, s, act);
      case ChildFinish => ChildKeepsInv(fx, s, act);
      case ChildFail => ChildKeepsInv(fx, s, act);
    }
  }

  // ---------- runs ----------

  /** A server that starts with an empty file and the log on, or with it off. */
  function Initial(n: nat, state: State): System
    requires n > 0
  {
    System(Aof(state, None, [], [], [], false, [], false, false, None), Blank(n).dbs,
           [], [Mark(0, Blank(n).dbs, None)], [], [], [], [])
  }

  ghost predicate IsRun(fx: Effect, ss: seq<System>, acts: seq<Action>) {
    && |ss| == |acts| + 1
    && (exists n: nat, state: State :: n > 0 && ss[0] == Initial(n, state))
    && forall i | 0 <= i < |acts| :: Enabled(fx, ss[i], acts[i]) && ss[i + 1] == Step(fx, ss[i], acts[i])
  }

  lemma InitialInv(fx: Effect, n: nat, state: State)
    requires n > 0
    ensures Inv(fx, Initial(n, state))
  {
    hide MarkOk, StretchOk, RunAll;
    var s := Initial(n, state);
    assert |s.dbs| == n && Blank(|s.dbs|) == Blank(n);
    RunNothing(fx, Blank(n));
    NothingNested(fx, Blank(n), []);
    NewJournal(fx, [], s.dbs, None);
    assert [][..0] == s.log;
    NoBytes();
  }

  lemma {:induction false} RunKeepsInv(fx: Effect, ss: seq<System>, acts: seq<Action>, i: nat)
    requires IsRun(fx, ss, acts) && i < |ss|
    ensures Inv(fx, ss[i])
  {
    hide Inv, Enabled, Step, Initial;
    if i == 0 {
      var n: nat, state: State :| n > 0 && ss[0] == Initial(n, state);
      InitialInv(fx, n, state);
    } else {
      RunKeepsInv(fx, ss, acts, i - 1);
      StepKeepsInv(fx, ss[i - 1], acts[i - 1]);
    }
  }

  /** At every point of every run with the log on, in the middle of a rewrite or after one that
      succeeded or failed in any way, loading the file and the buffer rebuilds the live databases. */
  lemma LogHoldsDataset(fx: Effect, ss: seq<System>, acts: seq<Action>, i: nat, loadTruncated: bool)
    requires IsRun(fx, ss, acts) && i < |ss| && ss[i].aof.state.On? && Writable(ss[i].log)
    ensures ss[i].dbs != []
    ensures var r := Load(fx, ss[i].aof.file + ss[i].aof.buf, Blank(|ss[i].dbs|), loadTruncated);
            r.Loaded? && r.s.dbs == ss[i].dbs
  {
    hide IsRun, RunAll, EncodeLog, Load, ChildInv, Journal;
    var s := ss[i];
    RunKeepsInv(fx, ss, acts, i);
    JournalMeans(fx, s.log, s.marks, s.dbs, s.aof.selected);
    LoadOfLog(fx, s.log, Blank(|s.dbs|), loadTruncated);
  }

  // ---------- the marks are states of the run ----------

  /** Mark b was set by a step that executed its work on the databases of mark a. */
  ghost predicate Recalls(ss: seq<System>, acts: seq<Action>, i: nat, a: Mark, b: Mark)
    requires |ss| == |acts| + 1 && i < |ss|
  {
    exists h: nat | h < i ::
      acts[h].Execute? && Some(acts[h].w) == b.w && ss[h].dbs == a.dbs && ss[h + 1].dbs == b.dbs
  }

  ghost predicate Had(ss: seq<System>, i: nat, dbs: seq<Db>)
    requires i < |ss|
  {
    exists h: nat | h <= i :: ss[h].dbs == dbs
  }

  ghost predicate Recorded(ss: seq<System>, acts: seq<Action>, i: nat, marks: seq<Mark>)
    requires |ss| == |acts| + 1 && i < |ss|
  {
    && marks != [] && Had(ss, i, marks[0].dbs)
    && forall j | 0 < j < |marks| :: Recalls(ss, acts, i, marks[j - 1], marks[j])
  }

  lemma RecordKept(ss: seq<System>, acts: seq<Action>, i: nat, marks: seq<Mark>)
    requires |ss| == |acts| + 1 && i + 1 < |ss| && Recorded(ss, acts, i, marks)
    ensures Recorded(ss, acts, i + 1, marks)
  {
    forall j | 0 < j < |marks| ensures Recalls(ss, acts, i + 1, marks[j - 1], marks[j]) {
      assert Recalls(ss, acts, i, marks[j - 1], marks[j]);
    }
  }

  lemma RecordGrows(ss: seq<System>, acts: seq<Action>, i: nat, marks: seq<Mark>, m: Mark)
    requires |ss| == |acts| + 1 && i + 1 < |ss| && Recorded(ss, acts, i, marks)
    requires acts[i].Execute? && m.w == Some(acts[i].w) && m.dbs == ss[i + 1].dbs
    requires marks[|marks| - 1].dbs == ss[i].dbs
    ensures Recorded(ss, acts, i + 1, marks + [m])
  {
    hide Recalls, Had;
    RecordKept(ss, acts, i, marks);
    var all := marks + [m];
    forall j | 0 < j < |all| ensures Recalls(ss, acts, i + 1, all[j - 1], all[j]) {
      if j == |marks| { NewRecall(ss, acts, i, all[j - 1], m); }
    }
  }

  lemma NewRecall(ss: seq<System>, acts: seq<Action>, i: nat, a: Mark, b: Mark)
    requires |ss| == |acts| + 1 && i + 1 < |ss|
    requires acts[i].Execute? && b.w == Some(acts[i].w) && a.dbs == ss[i].dbs && b.dbs == ss[i + 1].dbs
    ensures Recalls(ss, acts, i + 1, a, b)
  {
  }

  lemma RecordStarts(ss: seq<System>, acts: seq<Action>, i: nat, marks: seq<Mark>)
    requires |ss| == |acts| + 1 && i < |ss| && |marks| == 1 && marks[0].dbs == ss[i].dbs
    ensures Recorded(ss, acts, i, marks)
  {
  }

  ghost predicate AddsMark(s: System, act: Action, s': System, marks: seq<Mark>, marks': seq<Mark>) {
    && act.Execute? && !s.aof.state.Off?
    && marks' != [] && marks' == marks + [Mark(marks'[|marks'| - 1].at, s'.dbs, Some(act.w))]
  }

  predicate Rewriting(s: System) { s.aof.child.Some? && !s.aof.state.Off? }

  /** What a step may do to the marks that count. */
  lemma MarksAfter(fx: Effect, s: System, act: Action)
    requires s.dbs != [] && Enabled(fx, s, act)
    ensures var s' := Step(fx, s, act);
            s'.aof.state.On? ==>
              || (s.aof.state.On? && (s'.marks == s.marks || AddsMark(s, act, s', s.marks, s'.marks)))
              || (Rewriting(s) && s'.marks == s.diffMarks)
              || (|s'.marks| == 1 && s'.marks[0].dbs == s'.dbs)
    ensures var s' := Step(fx, s, act);
            Rewriting(s') ==>
              || (Rewriting(s) && (s'.diffMarks == s.diffMarks || AddsMark(s, act, s', s.diffMarks, s'.diffMarks)))
              || (|s'.diffMarks| == 1 && s'.diffMarks[0].dbs == s'.dbs)
  {
    hide Pictures, FeedableWork, WorkCmds, WorkSelects, WorkDbs, EncodeLog, RewriteCmds, EndsCleanly, Load, KeptCmds,
         Writable;
    var s' := Step(fx, s, act);
    if act.Execute? {
      assert s'.dbs == WorkDbs(fx, s.dbs, act.w);
    }
  }

  lemma LastMark(fx: Effect, cmds: seq<Argv>, marks: seq<Mark>, dbs: seq<Db>, selected: Option<nat>)
    requires Journal(fx, cmds, marks, dbs, selected)
    ensures marks != [] && marks[|marks| - 1].dbs == dbs
  {
    hide At, MarkOk, StretchOk, NotNested;
  }

  /** Every mark of the log, and of the rewrite going on, is a state of the run, and each but the first
      was reached from the one before by executing its work. */
  lemma {:induction false} RunRecords(fx: Effect, ss: seq<System>, acts: seq<Action>, i: nat)
    requires IsRun(fx, ss, acts) && i < |ss|
    ensures ss[i].aof.state.On? ==> Recorded(ss, acts, i, ss[i].marks)
    ensures Rewriting(ss[i]) ==> Recorded(ss, acts, i, ss[i].diffMarks)
  {
    hide Enabled, Step, Recorded, ChildInv, LogInv;
    if i == 0 {
      RecordStarts(ss, acts, 0, ss[0].marks);
    } else {
      var s, act := ss[i - 1], acts[i - 1];
      RunRecords(fx, ss, acts, i - 1);
      RunKeepsInv(fx, ss, acts, i - 1);
      MarksAfter(fx, s, act);
      if ss[i].aof.state.On? { MarksRecorded(fx, ss, acts, i); }
      if Rewriting(ss[i]) { DiffRecorded(fx, ss, acts, i); }
    }
  }

  lemma MarksRecorded(fx: Effect, ss: seq<System>, acts: seq<Action>, i: nat)
    requires |ss| == |acts| + 1 && 0 < i < |ss| && Inv(fx, ss[i - 1])
    requires ss[i - 1].aof.state.On? ==> Recorded(ss, acts, i - 1, ss[i - 1].marks)
    requires Rewriting(ss[i - 1]) ==> Recorded(ss, acts, i - 1, ss[i - 1].diffMarks)
    requires var s, s' := ss[i - 1], ss[i];
             || (s.aof.state.On? && (s'.marks == s.marks || AddsMark(s, acts[i - 1], s', s.marks, s'.marks)))
             || (Rewriting(s) && s'.marks == s.diffMarks)
             || (|s'.marks| == 1 && s'.marks[0].dbs == s'.dbs)
    ensures Recorded(ss, acts, i, ss[i].marks)
  {
    hide Recorded, ChildInv, Journal;
    var s, s' := ss[i - 1], ss[i];
    if |s'.marks| == 1 && s'.marks[0].dbs == s'.dbs {
      RecordStarts(ss, acts, i, s'.marks);
    } else if Rewriting(s) && s'.marks == s.diffMarks {
      RecordKept(ss, acts, i - 1, s.diffMarks);
    } else if s'.marks == s.marks {
      RecordKept(ss, acts, i - 1, s.marks);
    } else {
      LastMark(fx, s.log, s.marks, s.dbs, s.aof.selected);
      RecordGrows(ss, acts, i - 1, s.marks, s'.marks[|s'.marks| - 1]);
    }
  }

  lemma DiffRecorded(fx: Effect, ss: seq<System>, acts: seq<Action>, i: nat)
    requires |ss| == |acts| + 1 && 0 < i < |ss| && Inv(fx, ss[i - 1])
    requires Rewriting(ss[i - 1]) ==> Recorded(ss, acts, i - 1, ss[i - 1].diffMarks)
    requires var s, s' := ss[i - 1], ss[i];
             || (Rewriting(s)
                 && (s'.diffMarks == s.diffMarks || AddsMark(s, acts[i - 1], s', s.diffMarks, s'.diffMarks)))
             || (|s'.diffMarks| == 1 && s'.diffMarks[0].dbs == s'.dbs)
    ensures Recorded(ss, acts, i, ss[i].diffMarks)
  {
    hide Recorded, LogInv, Journal, Accounted;
    var s, s' := ss[i - 1], ss[i];
    if |s'.diffMarks| == 1 && s'.diffMarks[0].dbs == s'.dbs {
      RecordStarts(ss, acts, i, s'.diffMarks);
    } else if s'.diffMarks == s.diffMarks {
      RecordKept(ss, acts, i - 1, s.diffMarks);
    } else {
      LastMark(fx, s.snapshot + s.diff, s.diffMarks, s.dbs, s.aof.selected);
      RecordGrows(ss, acts, i - 1, s.diffMarks, s'.diffMarks[|s'.diffMarks| - 1]);
    }
  }

  lemma EveryMarkHad(ss: seq<System>, acts: seq<Action>, i: nat, marks: seq<Mark>, j: nat) returns (h: nat)
    requires |ss| == |acts| + 1 && i < |ss| && Recorded(ss, acts, i, marks) && j < |marks|
    ensures h <= i && ss[h].dbs == marks[j].dbs
  {
    if j == 0 {
      h :| h <= i && ss[h].dbs == marks[0].dbs;
    } else {
      assert Recalls(ss, acts, i, marks[j - 1], marks[j]);
      var g: nat :| g < i && acts[g].Execute? && Some(acts[g].w) == marks[j].w
                    && ss[g].dbs == marks[j - 1].dbs && ss[g + 1].dbs == marks[j].dbs;
      h := g + 1;
    }
  }

  // ---------- a crash ----------

  /** The commands of the log that the file lacks from the piece of work in which it ends. */
  ghost function Missing(s: System): nat
    requires s.marks != [] && s.marks[0].at <= Complete(s.log, |s.aof.file|)
  {
    var n := Complete(s.log, |s.aof.file|);
    var j := MarkBefore(s.marks, n);
    if n == s.marks[j].at || j + 1 == |s.marks| then 0 else s.marks[j + 1].at - n
  }

  /** If the buffer is lost in a crash at any point of any run, the file goes back to step h of the run.
      If it ends after a whole piece of work, it brings back the databases of that step.  If it ends inside
      one, which was executed at step h, it brings back databases the server had before or in the midst
      of that work if and only if it does not end between a SET and its PEXPIREAT, or the key already
      held the value for good.  In particular a transaction comes back as a whole or not at all. */
  lemma CrashLosesTheBuffer(fx: Effect, ss: seq<System>, acts: seq<Action>, i: nat) returns (h: nat)
    requires IsRun(fx, ss, acts) && i < |ss| && ss[i].aof.state.On? && Writable(ss[i].log)
    ensures h <= i && ss[i].dbs != [] && ss[i].marks != [] && ss[i].marks[0].at <= Complete(ss[i].log, |ss[i].aof.file|)
    ensures var left, r := Missing(ss[i]), Load(fx, ss[i].aof.file, Blank(|ss[i].dbs|), true);
            && !r.Fatal?
            && (left == 0 ==> r.s.dbs == ss[h].dbs)
            && (left > 0 ==>
                  && h < i && acts[h].Execute? && FeedableWork(acts[h].w, |ss[h].dbs|)
                  && (var dbs, w := ss[h].dbs, acts[h].w;
                      && r.s.dbs == CutDbs(fx, dbs, w, left)
                      && (r.s.dbs in Around(fx, dbs, w) <==> !Torn(fx, dbs, w, left) || HeldForGood(dbs, w))
                      && (w.Transaction? ==> r.s.dbs == dbs)))
  {
    hide IsRun, RunAll, EncodeLog, Load, ChildInv, Complete, Journal, MarkBefore, CutDbs, Around, Torn, HeldForGood,
         FeedableWork, Recorded;
    var s := ss[i];
    RunKeepsInv(fx, ss, acts, i);
    JournalMeans(fx, s.log, s.marks, s.dbs, s.aof.selected);
    var k := |s.aof.file|;
    assert EncodeLog(s.log)[..k] == s.aof.file;
    LoadOfCutLog(fx, s.log, k, Blank(|s.dbs|), true);
    FirstMark(fx, s.log, s.marks, s.dbs, s.aof.selected);
    CompleteReaches(s.log, k, s.marks[0].at);
    var n := Complete(s.log, k);
    CutGivesMark(fx, s.log, s.marks, s.dbs, s.aof.selected, n);
    RunLength(fx, ss, acts);
    RunRecords(fx, ss, acts, i);
    var j := MarkBefore(s.marks, n);
    if n == s.marks[j].at {
      h := EveryMarkHad(ss, acts, i, s.marks, j);
    } else {
      h := WorkOfMark(ss, acts, i, s.marks, j + 1);
      CutExactly(fx, ss[h].dbs, acts[h].w, s.marks[j + 1].at - n);
      CutTransactionDbs(fx, ss[h].dbs, acts[h].w, s.marks[j + 1].at - n);
    }
  }

  lemma RunLength(fx: Effect, ss: seq<System>, acts: seq<Action>)
    requires IsRun(fx, ss, acts)
    ensures |ss| == |acts| + 1
  {
  }

  lemma CutTransactionDbs(fx: Effect, dbs: seq<Db>, w: Work, left: nat)
    requires FeedableWork(w, |dbs|)
    ensures w.Transaction? ==> CutDbs(fx, dbs, w, left) == dbs
  {
  }

  lemma WorkOfMark(ss: seq<System>, acts: seq<Action>, i: nat, marks: seq<Mark>, j: nat) returns (h: nat)
    requires |ss| == |acts| + 1 && i < |ss| && Recorded(ss, acts, i, marks) && 0 < j < |marks|
    ensures h < i && acts[h].Execute? && Some(acts[h].w) == marks[j].w && ss[h].dbs == marks[j - 1].dbs
  {
    assert Recalls(ss, acts, i, marks[j - 1], marks[j]);
    h :| h < i && acts[h].Execute? && Some(acts[h].w) == marks[j].w
         && ss[h].dbs == marks[j - 1].dbs && ss[h + 1].dbs == marks[j].dbs;
  }

  // ---------- a crash that goes back to nothing the server had ----------

  /** SETEX k 10 v at time 0. */
  function SetExWork(k: Bytes, v: Bytes): Work { Single(Command(0, [SETEX, k, [49, 48], v], 0)) }

  lemma SetExFeeds(fx: Effect, k: Bytes, v: Bytes)
    ensures var w := SetExWork(k, v);
            && FeedableWork(w, 1) && TtlCommand(w.ev.argv) && Fed(LiveEvent(fx, EMPTY_DB, w.ev), w.ev.argv)
            && LiveEvent(fx, EMPTY_DB, w.ev).fed == [w.ev.argv]
            && WorkCmds(fx, [EMPTY_DB], None, w)
               == [[SELECT, EncodeInt(0)], [SET, k, v], [PEXPIREAT, k, EncodeInt(10000)]]
  {
    hide EncodeInt, DecodeInt;
    MoreNames();
    Names();
    TenIsANumber();
    var argv: Argv := [SETEX, k, [49, 48], v];
    assert argv[0] == SETEX && Upper(SETEX) == SETEX;
    assert SETEX[0] == 83 && MOVE[0] == 77;
    assert [argv][1..] == [];
    assert Translate(argv, 0) == [[SET, k, v], [PEXPIREAT, k, EncodeInt(10000)]];
    assert TranslateAll([argv], 0) == Translate(argv, 0) + [];
  }

  /** The command is executed, and a flush writes all but its PEXPIREAT before the crash. */
  lemma TornRun(fx: Effect, w: Work, cmds: seq<Argv>) returns (ss: seq<System>, acts: seq<Action>)
    requires FeedableWork(w, 1) && WorkCmds(fx, [EMPTY_DB], None, w) == cmds && |cmds| == 3
    ensures IsRun(fx, ss, acts) && |acts| == 2 && |ss| == 3 && acts[0] == Execute(w) && acts[1].Flush?
    ensures ss[0].dbs == [EMPTY_DB] && ss[1].dbs == ss[2].dbs == WorkDbs(fx, [EMPTY_DB], w)
    ensures ss[2].aof.state.On? && ss[2].log == [] + cmds && |ss[2].aof.file| == |EncodeLog(cmds[..2])|
    ensures |ss[2].marks| == 2 && ss[2].marks[0].at == 0 && ss[2].marks[1].at == 3
  {
    hide EncodeLog, WorkDbs, WorkCmds, WorkSelects, FeedableWork, Load, Initial, EndsCleanly, Pictures;
    var s0 := Initial(1, On);
    StartsEmpty();
    var s1 := ExecuteStep(fx, s0, w);
    var n := |EncodeLog(cmds[..2])|;
    PrefixBytes(cmds, 2);
    assert [] + EncodeLog(cmds) == EncodeLog(cmds) && [] + cmds == cmds;
    var s2 := s1.(aof := Flushed(s1.aof, n));
    ss, acts := [s0, s1, s2], [Execute(w), Flush(n)];
    assert Enabled(fx, s0, acts[0]) && Step(fx, s0, acts[0]) == s1;
    assert Enabled(fx, s1, acts[1]) && Step(fx, s1, acts[1]) == s2;
  }

  /** The key comes back without a deadline, which the server never had. */
  lemma CrashLosesDeadline(fx: Effect, k: Bytes, v: Bytes) returns (ss: seq<System>, acts: seq<Action>)
    requires Encodable([SET, k, v]) && Encodable([PEXPIREAT, k, EncodeInt(10000)])
    ensures IsRun(fx, ss, acts) && |acts| == 2 && |ss| == 3 && ss[2].aof.state.On? && Writable(ss[2].log)
    ensures ss[2].dbs != []
    ensures var r := Load(fx, ss[2].aof.file, Blank(|ss[2].dbs|), true);
            !r.Fatal? && forall h | 0 <= h <= 2 :: ss[h].dbs != r.s.dbs
  {
    hide EncodeLog, WorkDbs, WorkCmds, Load, IsRun, LiveEvent, TtlCommand, Missing, Complete, Feedable, EncodeInt;
    var w := SetExWork(k, v);
    SetExFeeds(fx, k, v);
    var cmds := WorkCmds(fx, [EMPTY_DB], None, w);
    ss, acts := TornRun(fx, w, cmds);
    AllButOne(cmds, ss[2], w);
    SelectEncodable();
    assert !HeldForGood([EMPTY_DB], w);
    EndsTorn(fx, ss, acts, w);
  }

  lemma SelectEncodable()
    ensures Encodable([SELECT, EncodeInt(0)])
  {
    assert EncodeInt(0) == [48];
  }

  /** The file lacks one command. */
  lemma AllButOne(cmds: seq<Argv>, s: System, w: Work)
    requires |cmds| == 3 && s.log == [] + cmds && |s.aof.file| == |EncodeLog(cmds[..2])|
    requires |s.marks| == 2 && s.marks[0].at == 0 && s.marks[1].at == 3
    ensures Complete(s.log, |s.aof.file|) == 2 && Missing(s) == 1
  {
    hide EncodeLog, Complete, EncodeCommand;
    assert [] + cmds == cmds;
    var k := |s.aof.file|;
    CompleteReaches(cmds, k, 2);
    assert cmds == cmds[..2] + [cmds[2]];
    EncodeLogAppend(cmds[..2], [cmds[2]]);
    OneEncoded(cmds[2]);
    SomeBytes(cmds[2]);
    assert cmds[..3] == cmds;
  }

  lemma OneEncoded(cmd: Argv)
    ensures EncodeLog([cmd]) == EncodeCommand(cmd)
  {
    var cmds := [cmd];
    assert cmds[1..] == [];
  }

  lemma SomeBytes(argv: Argv)
    ensures EncodeCommand(argv) != []
  {
  }

  lemma EndsTorn(fx: Effect, ss: seq<System>, acts: seq<Action>, w: Work)
    requires IsRun(fx, ss, acts) && |acts| == 2 && acts[0] == Execute(w) && acts[1].Flush? && |ss[0].dbs| == 1
    requires ss[2].aof.state.On? && Writable(ss[2].log) && ss[2].marks != []
    requires ss[2].marks[0].at <= Complete(ss[2].log, |ss[2].aof.file|) && Missing(ss[2]) == 1
    requires FeedableWork(w, 1) && Torn(fx, ss[0].dbs, w, 1) && !HeldForGood(ss[0].dbs, w)
    requires ss[1].dbs == WorkDbs(fx, ss[0].dbs, w) && ss[2].dbs == ss[1].dbs
    ensures ss[2].dbs != []
    ensures var r := Load(fx, ss[2].aof.file, Blank(|ss[2].dbs|), true);
            !r.Fatal? && forall h | 0 <= h <= 2 :: ss[h].dbs != r.s.dbs
  {
    hide IsRun, Load, Missing, FeedableWork, Torn, HeldForGood, CutDbs, WorkDbs, Between;
    RunLength(fx, ss, acts);
    var h := CrashLosesTheBuffer(fx, ss, acts, 2);
    assert h == 0;
    var r := Load(fx, ss[2].aof.file, Blank(|ss[2].dbs|), true);
    assert ss[0].dbs in Around(fx, ss[0].dbs, w) && ss[1].dbs in Around(fx, ss[0].dbs, w);
    assert forall g | 0 <= g <= 2 :: ss[g].dbs in Around(fx, ss[0].dbs, w);
  }

  lemma StartsEmpty()
    ensures var s := Initial(1, On);
            s.dbs == [EMPTY_DB] && s.aof.state == On && s.aof.selected == None && s.aof.file == [] && s.aof.buf == []
            && s.log == [] && s.marks == [Mark(0, [EMPTY_DB], None)]
  {
    assert Blank(1).dbs == [EMPTY_DB];
  }

  /** Commands that lie within the first k bytes are counted. */
  lemma CompleteReaches(cmds: seq<Argv>, k: nat, m: nat)
    requires m <= |cmds| && |EncodeLog(cmds[..m])| <= k
    ensures m <= Complete(cmds, k)
  {
    hide EncodeLog, Complete;
    var n := Complete(cmds, k);
    if n < m {
      assert cmds[..n + 1] == cmds[..m][..n + 1];
      PrefixBytes(cmds[..m], n + 1);
    }
  }

  /** After a crash in any run, what the server then appends continues the file faithfully if and only if
      the file does not end inside a command of an open transaction: the condition under which Restart
      goes on. */
  lemma RestartExactly(fx: Effect, ss: seq<System>, acts: seq<Action>, i: nat) returns (m: nat)
    requires IsRun(fx, ss, acts) && i < |ss| && ss[i].aof.state.On? && Writable(ss[i].log)
    ensures ss[i].dbs != []
    ensures var s := ss[i];
            var o := Load(fx, s.aof.file, Blank(|s.dbs|), true);
            && m <= |s.log| && !o.Fatal? && Valid(o.s)
            && (if o.Truncated? then o.offset else |s.aof.file|) == |EncodeLog(s.log[..m])|
            && (Faithful(fx, s.log[..m], Blank(|s.dbs|), o.s) <==> EndsCleanly(fx, s))
  {
    hide IsRun, RunAll, EncodeLog, Load, ChildInv, Complete, Faithful, CleanCut, MarkOk, StretchOk, NotNested;
    var s := ss[i];
    RunKeepsInv(fx, ss, acts, i);
    var k := |s.aof.file|;
    assert EncodeLog(s.log)[..k] == s.aof.file;
    m := AppendingAfterLoad(fx, s.log, k, Blank(|s.dbs|));
  }

  /** The file a rewrite installs is the snapshot of the fork followed by every byte fed since, no
      matter how the pipe, the child and the rewrite buffer shared them.  With the log off nothing
      is fed, and the file is the snapshot. */
  lemma InstallHoldsEverything(fx: Effect, ss: seq<System>, acts: seq<Action>, i: nat)
    requires IsRun(fx, ss, acts) && i < |acts| && acts[i] == Reap(true, true, true) && InPhase(ss[i].aof, Finished)
    ensures ss[i + 1].aof.file == EncodeLog(ss[i].snapshot) + EncodeLog(ss[i].diff)
    ensures ss[i].aof.state.Off? ==> ss[i + 1].aof.file == EncodeLog(ss[i].snapshot)
    ensures ss[i].dbs != [] && At(fx, |ss[i].dbs|, ss[i].snapshot).dbs == ss[i].forked
    ensures !ss[i].aof.state.Off? ==> ss[i + 1].aof.state.On? && ss[i + 1].aof.buf == []
    ensures !ss[i].aof.state.Off? ==> At(fx, |ss[i].dbs|, ss[i].snapshot + ss[i].diff).dbs == ss[i].dbs
  {
    hide EncodeLog, At, Journal, EndsCleanly;
    RunKeepsInv(fx, ss, acts, i);
    var s := ss[i];
    assert ss[i + 1] == Step(fx, s, acts[i]);
    NoBytes();
    assert EncodeLog(s.snapshot) + [] == EncodeLog(s.snapshot);
    if !s.aof.state.Off? { JournalMeans(fx, s.snapshot + s.diff, s.diffMarks, s.dbs, s.aof.selected); }
  }
}
