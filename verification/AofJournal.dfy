/** A log together with the databases the server had after each piece of work in it: what a cut of the
    log can bring back. */
module AofJournal {
  import opened Common
  import opened Resp
  import opened Dataset
  import opened AofLoader
  import opened AofRewrite
  import opened AofFeed

  /** After the first `at` commands the databases were dbs, and the last piece of work was w. */
  datatype Mark = Mark(at: nat, dbs: seq<Db>, w: Option<Work>)

  /** The commands of one event, without the SELECT. */
  function Parts(fx: Effect, d: Db, ev: Event): seq<Argv> { TranslateAll(LiveEvent(fx, d, ev).fed, ev.now) }

  /** The databases that a log gives that lacks the last commands, `left` of them, of one piece of work.  A
      transaction has then done nothing; a command fed as several may have done a part. */
  function CutDbs(fx: Effect, dbs: seq<Db>, w: Work, left: nat): (r: seq<Db>)
    requires FeedableWork(w, |dbs|)
    ensures |r| == |dbs|
  {
    if w.Transaction? then dbs
    else
      var d := dbs[w.ev.db];
      var parts := Parts(fx, d, w.ev);
      if left >= |parts| then dbs else dbs[w.ev.db := ExecDbAll(fx, d, parts[..|parts| - left])]
  }

  function At(fx: Effect, n: nat, cmds: seq<Argv>): Session
    requires n > 0
  {
    RunAll(fx, Blank(n), cmds)
  }

  ghost predicate MarkOk(fx: Effect, n: nat, cmds: seq<Argv>, m: Mark)
    requires n > 0
  {
    m.at <= |cmds| && At(fx, n, cmds[..m.at]).dbs == m.dbs && At(fx, n, cmds[..m.at]).multi.None?
  }

  /** What every cut between two marks gives. */
  ghost predicate StretchOk(fx: Effect, n: nat, cmds: seq<Argv>, a: Mark, b: Mark)
    requires n > 0
  {
    && a.at <= b.at <= |cmds| && |a.dbs| == n && b.w.Some? && FeedableWork(b.w.value, n)
    && b.dbs == WorkDbs(fx, a.dbs, b.w.value)
    && forall i | a.at <= i < b.at :: At(fx, n, cmds[..i]).dbs == CutDbs(fx, a.dbs, b.w.value, b.at - i)
  }

  /** The log stands for the databases, a replaying client ends where the feed believes it is, no MULTI
      is nested, and the marks are right. */
  ghost predicate Journal(fx: Effect, cmds: seq<Argv>, marks: seq<Mark>, dbs: seq<Db>, selected: Option<nat>) {
    && dbs != [] && marks != []
    && InStep(At(fx, |dbs|, cmds), selected)
    && NotNested(fx, Blank(|dbs|), cmds)
    && marks[|marks| - 1].at == |cmds| && marks[|marks| - 1].dbs == dbs
    && (forall i | 0 <= i < |marks| :: MarkOk(fx, |dbs|, cmds, marks[i]))
    && (forall i | 0 < i < |marks| :: StretchOk(fx, |dbs|, cmds, marks[i - 1], marks[i]))
  }

  lemma JournalMeans(fx: Effect, cmds: seq<Argv>, marks: seq<Mark>, dbs: seq<Db>, selected: Option<nat>)
    requires Journal(fx, cmds, marks, dbs, selected)
    ensures dbs != [] && At(fx, |dbs|, cmds).dbs == dbs && InStep(At(fx, |dbs|, cmds), selected)
  {
    hide RunAll;
    var last := marks[|marks| - 1];
    assert MarkOk(fx, |dbs|, cmds, last);
    assert cmds[..|cmds|] == cmds;
  }

  /** A log by itself, with nothing known of what led to it. */
  lemma NewJournal(fx: Effect, cmds: seq<Argv>, dbs: seq<Db>, selected: Option<nat>)
    requires dbs != [] && At(fx, |dbs|, cmds).dbs == dbs && InStep(At(fx, |dbs|, cmds), selected)
    requires NotNested(fx, Blank(|dbs|), cmds)
    ensures Journal(fx, cmds, [Mark(|cmds|, dbs, None)], dbs, selected)
  {
    hide RunAll;
    assert cmds[..|cmds|] == cmds;
  }

  // ---------- prefixes of one piece of work ----------

  lemma SelectPrefix(fx: Effect, s: Session, selected: Option<nat>, db: nat, t: nat)
    requires InStep(s, selected) && db < |s.dbs| && t <= |SelectCmds(selected, db)|
    ensures RunAll(fx, s, SelectCmds(selected, db)[..t]).dbs == s.dbs
    ensures RunAll(fx, s, SelectCmds(selected, db)[..t]).multi.None?
  {
    hide RunAll, EncodeInt;
    var cmds := SelectCmds(selected, db);
    if t == |cmds| {
      assert cmds[..t] == cmds;
      SelectsRun(fx, s, selected, db);
    } else {
      assert cmds[..t] == [];
      RunNothing(fx, s);
    }
  }

  /** Cut anywhere before its end. */
  lemma WorkPrefix(fx: Effect, s: Session, selected: Option<nat>, w: Work, t: nat)
    requires InStep(s, selected) && FeedableWork(w, |s.dbs|)
    requires t < |WorkCmds(fx, s.dbs, selected, w)|
    ensures RunAll(fx, s, WorkCmds(fx, s.dbs, selected, w)[..t]).dbs
            == CutDbs(fx, s.dbs, w, |WorkCmds(fx, s.dbs, selected, w)| - t)
  {
    hide RunAll, Block, LiveEvent, TranslateAll, SelectCmds, Feedable, AllFeedable;
    var cmds := WorkCmds(fx, s.dbs, selected, w);
    if w.Single? {
      SinglePrefix(fx, s, selected, w.ev, t);
    } else {
      var sel, block := SelectCmds(selected, w.db), Block(fx, s.dbs, w);
      if t <= |sel| {
        assert cmds[..t] == sel[..t];
        SelectPrefix(fx, s, selected, w.db, t);
      } else {
        var k := t - |sel| - 1;
        assert cmds[..t] == sel + ([[MULTI]] + block[..k]);
        RunAllAppend(fx, s, sel, [[MULTI]] + block[..k]);
        SelectsRun(fx, s, selected, w.db);
        BlockStraight(fx, s.dbs, w);
        CutTransaction(fx, s.(cur := w.db), block, k);
      }
    }
  }

  lemma SinglePrefix(fx: Effect, s: Session, selected: Option<nat>, ev: Event, t: nat)
    requires InStep(s, selected) && Feedable(ev, |s.dbs|) && t < |EventCmds(fx, s.dbs, selected, ev)|
    ensures RunAll(fx, s, EventCmds(fx, s.dbs, selected, ev)[..t]).dbs
            == CutDbs(fx, s.dbs, Single(ev), |EventCmds(fx, s.dbs, selected, ev)| - t)
  {
    hide RunAll, LiveEvent, TranslateAll, SelectCmds, Plain, Clashes, Is, Across, ExecDbAll;
    var sel := SelectCmds(selected, ev.db);
    var d := s.dbs[ev.db];
    var parts := Parts(fx, d, ev);
    var cmds := EventCmds(fx, s.dbs, selected, ev);
    if t <= |sel| {
      assert cmds[..t] == sel[..t];
      SelectPrefix(fx, s, selected, ev.db, t);
    } else {
      var k := t - |sel|;
      assert cmds[..t] == sel + parts[..k];
      RunAllAppend(fx, s, sel, parts[..k]);
      SelectsRun(fx, s, selected, ev.db);
      assert !ev.Wide? by { if ev.Wide? { WideParts(fx, d, ev); } }
      FedPlain(fx, d, ev);
      AllTranslatedPlain(LiveEvent(fx, d, ev).fed, ev.now);
      assert AllPlain(parts[..k]);
      RunPlain(fx, s.(cur := ev.db), parts[..k]);
    }
  }

  lemma WideParts(fx: Effect, d: Db, ev: Event)
    requires ev.Wide? && Across(ev.argv)
    ensures |Parts(fx, d, ev)| == 1
  {
    WideTranslated(ev.argv, ev.now);
  }

  /** MULTI stands only where no transaction is open. */
  lemma WorkNotNested(fx: Effect, s: Session, selected: Option<nat>, w: Work)
    requires InStep(s, selected) && FeedableWork(w, |s.dbs|)
    ensures NotNested(fx, s, WorkCmds(fx, s.dbs, selected, w))
  {
    hide RunAll, Block, EventCmds, SelectCmds, Is, Feedable, AllFeedable;
    var cmds := WorkCmds(fx, s.dbs, selected, w);
    if w.Single? {
      EventStraight(fx, s.dbs, selected, w.ev);
      forall i | 0 <= i < |cmds| ensures !Is(cmds[i], MULTI) { assert Straight(cmds[i]); }
    } else {
      var sel, block := SelectCmds(selected, w.db), Block(fx, s.dbs, w);
      BlockStraight(fx, s.dbs, w);
      forall i | 0 <= i < |block| ensures !Is(block[i], MULTI) { assert Straight(block[i]); }
      assert forall i | |sel| < i <= |sel| + |block| :: cmds[i] == block[i - |sel| - 1];
      ExecIsNoMulti();
      SelectsRun(fx, s, selected, w.db);
      forall i | 0 <= i < |cmds| && Is(cmds[i], MULTI) ensures RunAll(fx, s, cmds[..i]).multi.None? {
        if i <= |sel| {
          assert cmds[..i] == sel[..i];
          SelectPrefix(fx, s, selected, w.db, i);
        }
      }
    }
  }

  lemma ExecIsNoMulti()
    ensures !Is([EXEC], MULTI)
  {
    Names();
    var cmd := [EXEC];
    assert cmd[0] == EXEC && |EXEC| == 4 && |MULTI| == 5;
  }

  // ---------- one more piece of work ----------

  lemma {:induction false} NestedJoin(fx: Effect, s: Session, a: seq<Argv>, b: seq<Argv>)
    requires Valid(s) && NotNested(fx, s, a) && NotNested(fx, RunAll(fx, s, a), b)
    ensures NotNested(fx, s, a + b)
  {
    hide Run, Is, RunAll;
    var cmds := a + b;
    forall i | 0 <= i < |cmds| && Is(cmds[i], MULTI) ensures RunAll(fx, s, cmds[..i]).multi.None? {
      if i < |a| {
        assert cmds[..i] == a[..i] && cmds[i] == a[i];
      } else {
        var k := i - |a|;
        assert cmds[..i] == a + b[..k] && cmds[i] == b[k];
        RunAllAppend(fx, s, a, b[..k]);
      }
    }
  }

  lemma MarkKept(fx: Effect, n: nat, cmds: seq<Argv>, more: seq<Argv>, m: Mark)
    requires n > 0 && MarkOk(fx, n, cmds, m)
    ensures MarkOk(fx, n, cmds + more, m)
  {
    hide At;
    assert (cmds + more)[..m.at] == cmds[..m.at];
  }

  lemma StretchKept(fx: Effect, n: nat, cmds: seq<Argv>, more: seq<Argv>, a: Mark, b: Mark)
    requires n > 0 && StretchOk(fx, n, cmds, a, b)
    ensures StretchOk(fx, n, cmds + more, a, b)
  {
    hide At, CutDbs, WorkDbs, FeedableWork;
    forall i | a.at <= i < b.at ensures At(fx, n, (cmds + more)[..i]).dbs == CutDbs(fx, a.dbs, b.w.value, b.at - i) {
      assert (cmds + more)[..i] == cmds[..i];
    }
  }

  /** The new stretch. */
  lemma StretchAdded(fx: Effect, cmds: seq<Argv>, dbs: seq<Db>, selected: Option<nat>, w: Work, last: Mark)
    requires dbs != [] && FeedableWork(w, |dbs|)
    requires At(fx, |dbs|, cmds).dbs == dbs && InStep(At(fx, |dbs|, cmds), selected)
    requires last.at == |cmds| && last.dbs == dbs
    ensures var more := WorkCmds(fx, dbs, selected, w);
            StretchOk(fx, |dbs|, cmds + more, last, Mark(|cmds + more|, WorkDbs(fx, dbs, w), Some(w)))
  {
    hide RunAll, WorkCmds, WorkDbs, CutDbs, FeedableWork;
    var more := WorkCmds(fx, dbs, selected, w);
    var s, all := At(fx, |dbs|, cmds), cmds + more;
    forall i | |cmds| <= i < |all| ensures At(fx, |dbs|, all[..i]).dbs == CutDbs(fx, dbs, w, |all| - i) {
      var t := i - |cmds|;
      assert all[..i] == cmds + more[..t];
      RunAllAppend(fx, Blank(|dbs|), cmds, more[..t]);
      WorkPrefix(fx, s, selected, w, t);
    }
  }

  ghost function Marked(fx: Effect, cmds: seq<Argv>, marks: seq<Mark>, dbs: seq<Db>, selected: Option<nat>, w: Work)
    : seq<Mark>
    requires FeedableWork(w, |dbs|)
  {
    marks + [Mark(|cmds + WorkCmds(fx, dbs, selected, w)|, WorkDbs(fx, dbs, w), Some(w))]
  }

  lemma JournalGrows(fx: Effect, cmds: seq<Argv>, marks: seq<Mark>, dbs: seq<Db>, selected: Option<nat>, w: Work)
    requires Journal(fx, cmds, marks, dbs, selected) && FeedableWork(w, |dbs|)
    ensures Journal(fx, cmds + WorkCmds(fx, dbs, selected, w), Marked(fx, cmds, marks, dbs, selected, w),
                    WorkDbs(fx, dbs, w), WorkSelects(fx, dbs, selected, w))
  {
    hide RunAll, WorkCmds, WorkDbs, WorkSelects, FeedableWork, StretchOk, MarkOk, NotNested;
    var more := WorkCmds(fx, dbs, selected, w);
    var all, dbs' := cmds + more, WorkDbs(fx, dbs, w);
    var marks' := Marked(fx, cmds, marks, dbs, selected, w);
    var n, last := |dbs|, marks[|marks| - 1];
    var s := At(fx, n, cmds);
    JournalMeans(fx, cmds, marks, dbs, selected);
    RunAllAppend(fx, Blank(n), cmds, more);
    WorkRuns(fx, s, selected, w);
    WorkNotNested(fx, s, selected, w);
    NestedJoin(fx, Blank(n), cmds, more);
    NewMark(fx, n, all, marks'[|marks|]);
    StretchAdded(fx, cmds, dbs, selected, w, last);
    forall i | 0 <= i < |marks'| ensures MarkOk(fx, n, all, marks'[i]) {
      if i < |marks| { MarkKept(fx, n, cmds, more, marks[i]); }
    }
    forall i | 0 < i < |marks'| ensures StretchOk(fx, n, all, marks'[i - 1], marks'[i]) {
      if i < |marks| { StretchKept(fx, n, cmds, more, marks[i - 1], marks[i]); }
    }
  }

  lemma NewMark(fx: Effect, n: nat, cmds: seq<Argv>, m: Mark)
    requires n > 0 && m.at == |cmds| && m.dbs == At(fx, n, cmds).dbs && At(fx, n, cmds).multi.None?
    ensures MarkOk(fx, n, cmds, m)
  {
    hide At;
    assert cmds[..|cmds|] == cmds;
  }

  // ---------- what a cut brings back ----------

  /** The last mark at or before the first t commands. */
  ghost function MarkBefore(marks: seq<Mark>, t: nat): (j: nat)
    requires marks != [] && marks[0].at <= t
    ensures j < |marks| && marks[j].at <= t && (j + 1 < |marks| ==> t < marks[j + 1].at)
  {
    if |marks| == 1 || marks[|marks| - 1].at <= t then |marks| - 1 else MarkBefore(marks[..|marks| - 1], t)
  }

  /** A log cut after any number of its commands, with an open transaction dropped, gives the databases
      after the last piece of work that is whole, with the part of the next that was kept. */
  lemma CutGivesMark(fx: Effect, cmds: seq<Argv>, marks: seq<Mark>, dbs: seq<Db>, selected: Option<nat>, t: nat)
    requires Journal(fx, cmds, marks, dbs, selected) && marks[0].at <= t <= |cmds|
    ensures var j := MarkBefore(marks, t);
            if t == marks[j].at then At(fx, |dbs|, cmds[..t]).dbs == marks[j].dbs
            else
              && j + 1 < |marks| && |marks[j].dbs| == |dbs|
              && marks[j + 1].w.Some? && FeedableWork(marks[j + 1].w.value, |dbs|)
              && At(fx, |dbs|, cmds[..t]).dbs == CutDbs(fx, marks[j].dbs, marks[j + 1].w.value, marks[j + 1].at - t)
  {
    hide At, MarkBefore, NotNested, CutDbs, FeedableWork, WorkDbs;
    var j := MarkBefore(marks, t);
    assert MarkOk(fx, |dbs|, cmds, marks[j]);
    if t != marks[j].at {
      var i := j + 1;
      assert StretchOk(fx, |dbs|, cmds, marks[i - 1], marks[i]);
    }
  }

  // ---------- inside one command ----------

  /** SETEX, PSETEX and SET with a time to live are fed as a SET and a PEXPIREAT. */
  predicate TtlCommand(argv: Argv) {
    IsSetEx(argv) || (Is(argv, SET) && |argv| > 3 && HasTtl(argv, 3))
  }

  function ValueOf(argv: Argv): Bytes
    requires |argv| > 3
  {
    if IsSetEx(argv) then argv[3] else argv[2]
  }

  /** The log ends between the two. */
  predicate Torn(fx: Effect, dbs: seq<Db>, w: Work, left: nat)
    requires FeedableWork(w, |dbs|)
  {
    && w.Single? && w.ev.Command? && left == 1 && TtlCommand(w.ev.argv)
    && Fed(LiveEvent(fx, dbs[w.ev.db], w.ev), w.ev.argv)
  }

  /** The key already held the new value for good. */
  predicate HeldForGood(dbs: seq<Db>, w: Work)
    requires FeedableWork(w, |dbs|)
  {
    && w.Single? && w.ev.Command? && TtlCommand(w.ev.argv)
    && Holds(dbs[w.ev.db], w.ev.argv[1], ValueOf(w.ev.argv))
  }

  predicate Holds(d: Db, k: Bytes, v: Bytes) { k in d.dict && d.dict[k] == Str(v) && k !in d.expires }

  /** The databases in the midst of a command that has met its key expired: the key is gone. */
  function Between(fx: Effect, dbs: seq<Db>, w: Work): seq<Db>
    requires FeedableWork(w, |dbs|)
  {
    if w.Single? && w.ev.Command? && |w.ev.argv| > 1 && |LiveEvent(fx, dbs[w.ev.db], w.ev).fed| > 1
    then dbs[w.ev.db := ExpireIfNeeded(dbs[w.ev.db], w.ev.argv[1], w.ev.now).d]
    else dbs
  }

  /** The databases the server has before, in the midst of and after a piece of work. */
  function Around(fx: Effect, dbs: seq<Db>, w: Work): set<seq<Db>>
    requires FeedableWork(w, |dbs|)
  {
    {dbs, Between(fx, dbs, w), WorkDbs(fx, dbs, w)}
  }

  lemma NothingTranslated(t: int)
    ensures TranslateAll([], t) == []
  {
  }

  lemma ExpiryTranslated(d: Db, k: Bytes, now: int)
    ensures var fed := ExpireIfNeeded(d, k, now).fed; |fed| <= 1 && TranslateAll(fed, now) == fed
  {
    if ExpireIfNeeded(d, k, now).fed != [] { DelTranslated(k, now); }
  }

  lemma DelTranslated(k: Bytes, now: int)
    ensures TranslateAll([[DEL, k]], now) == [[DEL, k]]
  {
    MoreNames();
    Names();
    var cmds: seq<Argv> := [[DEL, k]];
    assert cmds[1..] == [];
    assert cmds[0][0] == DEL;
    assert Translate(cmds[0], now) == [cmds[0]];
    assert [cmds[0]] + [] == cmds;
  }

  /** A command that feeds itself does so after the DEL for an expired key, if it is one that looks. */
  lemma SetKeyMeans(d: Db, argv: Argv, k: Bytes, v: Bytes, nx: bool, xx: bool, ttl: Option<int>, now: int)
    ensures var l, e := LiveSetKey(d, argv, k, v, nx, xx, ttl, now), ExpireIfNeeded(d, k, now);
            l.fed == [] || l.fed == e.fed
            || (l.fed == e.fed + [argv] && l.d.dict == e.d.dict[k := Str(v)] && l.d.expires - {k} == e.d.expires - {k})
  {
  }

  ghost predicate SetOutcome(l: Live, d: Db, argv: Argv, k: Bytes, v: Bytes, now: int) {
    var e := ExpireIfNeeded(d, k, now);
    || l.fed == [] || l.fed == e.fed
    || (l.fed == e.fed + [argv] && l.d.dict == e.d.dict[k := Str(v)] && l.d.expires - {k} == e.d.expires - {k})
  }

  predicate Parsed(argv: Argv)
    requires |argv| >= 3
  {
    var p := ParseSet(argv, 3, NO_ARGS);
    p.Some? && (p.value.expire.Some? ==> DecodeInt(p.value.expire.value).Some?)
  }

  lemma LiveSetValue(d: Db, argv: Argv, now: int)
    requires |argv| >= 3
    ensures SetOutcome(LiveSet(d, argv, now), d, argv, argv[1], argv[2], now)
    ensures LiveSet(d, argv, now).fed != [] ==> Parsed(argv)
  {
    hide ParseSet, DecodeInt, LiveSetKey, ExpireIfNeeded;
    if Parsed(argv) {
      var r := ParseSet(argv, 3, NO_ARGS).value;
      var ttl := if r.expire.None? then None else Some(DecodeInt(r.expire.value).value * if r.ex then 1000 else 1);
      SetKeyMeans(d, argv, argv[1], argv[2], r.nx, r.xx, ttl, now);
    }
  }

  lemma LiveSetExValue(d: Db, argv: Argv, now: int)
    requires IsSetEx(argv)
    ensures SetOutcome(LiveSetEx(d, argv, now), d, argv, argv[1], argv[3], now)
  {
    hide Is, DecodeInt, LiveSetKey, ExpireIfNeeded;
    var x := DecodeInt(argv[2]);
    if x.Some? { SetKeyMeans(d, argv, argv[1], argv[3], false, false, Some(x.value * Unit(argv)), now); }
  }

  /** What a SETEX, PSETEX or SET feeds and does. */
  lemma LiveSetsValue(fx: Effect, d: Db, argv: Argv, now: int)
    requires IsSetEx(argv) || (Is(argv, SET) && |argv| >= 3)
    ensures SetOutcome(LiveExec(fx, d, argv, now), d, argv, argv[1], if IsSetEx(argv) then argv[3] else argv[2], now)
    ensures !IsSetEx(argv) && LiveExec(fx, d, argv, now).fed != [] ==> Parsed(argv)
  {
    hide SetOutcome, Parsed, LiveSet, LiveSetEx, Upper;
    MoreNames();
    Names();
    if IsSetEx(argv) { LiveSetExValue(d, argv, now); } else { LiveSetValue(d, argv, now); }
  }

  /** What any command feeds. */
  lemma FedShape(fx: Effect, d: Db, argv: Argv, now: int)
    ensures var l := LiveExec(fx, d, argv, now);
            || |l.fed| <= 1
            || (|argv| > 1 && ExpireIfNeeded(d, argv[1], now).fed == [[DEL, argv[1]]]
                && l.fed == [[DEL, argv[1]], argv])
    ensures var l := LiveExec(fx, d, argv, now);
            |l.fed| == 1 && l.fed != [argv] ==> |argv| > 1 && l.fed == [[DEL, argv[1]]]
  {
    hide ExecDb, Upper, ParseSet, DecodeInt, LiveSetEx, LiveSet, Parsed;
    if IsExpire(argv) {
    } else if IsSetEx(argv) || (Is(argv, SET) && |argv| >= 3) {
      LiveSetsValue(fx, d, argv, now);
    }
  }

  /** How many commands a command that fed itself is translated into. */
  lemma HowManyParts(fx: Effect, d: Db, argv: Argv, now: int)
    requires Is(argv, SET) && |argv| >= 3 ==> !Clashes(argv, 3)
    requires Fed(LiveExec(fx, d, argv, now), argv)
    ensures |Translate(argv, now)| == if TtlCommand(argv) then 2 else 1
  {
    hide Upper, HasTtl, Clashes, ParseSet, DecodeInt, ExpireAt, Scan, LiveExec, Translate;
    if IsSetEx(argv) || (Is(argv, SET) && |argv| >= 3) { LiveSetsValue(fx, d, argv, now); }
    if TtlCommand(argv) {
      var _ := TwoParts(argv, now);
    } else if Is(argv, SET) && |argv| >= 3 {
      if |argv| == 3 {
        ShortTranslated(argv, now);
      } else {
        PlainTranslated(argv, now, ParseSet(argv, 3, NO_ARGS).value);
      }
    } else {
      OtherTranslated(argv, now);
    }
  }

  lemma OtherTranslated(argv: Argv, t: int)
    requires !IsSetEx(argv) && !(Is(argv, SET) && |argv| >= 3)
    ensures |Translate(argv, t)| == 1
  {
    hide Is;
  }

  lemma TwoParts(argv: Argv, t: int) returns (name: Bytes)
    requires TtlCommand(argv) && (Is(argv, SET) ==> !Clashes(argv, 3))
    requires !IsSetEx(argv) ==> Parsed(argv)
    ensures Upper(name) == SET && |Translate(argv, t)| == 2
    ensures Translate(argv, t)[..1] == [[name, argv[1], ValueOf(argv)]]
  {
    hide HasTtl, Clashes, ParseSet, DecodeInt, ExpireAt, Scan;
    MoreNames();
    Names();
    if IsSetEx(argv) {
      name := SET;
      assert Upper(SET) == SET;
    } else {
      name := argv[0];
      TtlTranslated(argv, t, ParseSet(argv, 3, NO_ARGS).value);
      assert argv[..3] == [argv[0], argv[1], argv[2]];
    }
  }

  lemma SetStrMeans(d: Db, e: Db, r: Db, k: Bytes, v: Bytes)
    requires k in r.expires && r.dict == e.dict[k := Str(v)] && r.expires - {k} == e.expires - {k}
    requires e == d || (k !in e.dict && k in d.expires)
    ensures SetStr(e, k, v) == r.(expires := r.expires - {k}) != r
    ensures SetStr(e, k, v) == d <==> Holds(d, k, v)
    ensures SetStr(e, k, v) == e ==> e == d
  {
    var c := SetStr(e, k, v);
    assert k !in c.expires && k in c.dict;
    if e == d && Holds(d, k, v) {
      assert d.dict[k := Str(v)] == d.dict && d.expires - {k} == d.expires;
    }
    assert c == d ==> Holds(d, k, v);
  }

  /** Between its SET and its PEXPIREAT the log holds the new value without its deadline: never what the
      server had afterwards, nor in the midst of the command, and what it had before if and only if the
      key already held that value for good.  Whether the key had expired makes no difference. */
  lemma CutLosesDeadline(fx: Effect, d: Db, argv: Argv, now: int)
    requires TtlCommand(argv) && (Is(argv, SET) ==> !Clashes(argv, 3)) && Fed(LiveExec(fx, d, argv, now), argv)
    ensures var l, k := LiveExec(fx, d, argv, now), argv[1];
            var e, parts := ExpireIfNeeded(d, k, now), TranslateAll(l.fed, now);
            && l.fed == e.fed + [argv] && |parts| == |e.fed| + 2
            && (var cut := ExecDbAll(fx, d, parts[..|parts| - 1]);
                && k in l.d.expires && cut == l.d.(expires := l.d.expires - {k}) != l.d
                && (e.fed != [] ==> cut != e.d)
                && (cut == d <==> Holds(d, k, ValueOf(argv))))
  {
    hide ExecDb, ExecDbAll, Translate, TranslateAll, Upper, HasTtl, Clashes, ParseSet, DecodeInt, LiveExec;
    var l, k, v := LiveExec(fx, d, argv, now), argv[1], ValueOf(argv);
    var e := ExpireIfNeeded(d, k, now);
    TtlIsSet(fx, d, argv, now);
    LiveSetsValue(fx, d, argv, now);
    NotItsOwnDel(argv, k);
    TranslateFed(e.fed, argv, now);
    ExpiryTranslated(d, k, now);
    var name := TwoParts(argv, now);
    var parts, two := TranslateAll(l.fed, now), Translate(argv, now);
    assert parts[..|parts| - 1] == TranslateAll(e.fed, now) + two[..1];
    ExecDbAllAppend(fx, d, TranslateAll(e.fed, now), two[..1]);
    ExpiredReplays(fx, d, k, now, now);
    ExecOne(fx, e.d, [name, k, v]);
    SetExec(fx, e.d, name, k, v);
    SetStrMeans(d, e.d, l.d, k, v);
  }

  lemma NotItsOwnDel(argv: Argv, k: Bytes)
    requires TtlCommand(argv)
    ensures argv != [DEL, k]
  {
    hide HasTtl;
  }

  /** After the DEL of an expired key and before the command itself: the key is gone. */
  lemma CutAfterExpiry(fx: Effect, d: Db, argv: Argv, now: int)
    requires |argv| > 1 && LiveExec(fx, d, argv, now).fed == [[DEL, argv[1]], argv]
    requires ExpireIfNeeded(d, argv[1], now).fed == [[DEL, argv[1]]]
    ensures var parts := TranslateAll(LiveExec(fx, d, argv, now).fed, now);
            |parts| == 1 + |Translate(argv, now)| && ExecDbAll(fx, d, parts[..1]) == ExpireIfNeeded(d, argv[1], now).d
  {
    hide ExecDb, ExecDbAll, Translate, TranslateAll, LiveExec;
    var k := argv[1];
    var fed := ExpireIfNeeded(d, k, now).fed;
    assert [[DEL, k], argv] == fed + [argv];
    TranslateFed(fed, argv, now);
    ExpiryTranslated(d, k, now);
    assert TranslateAll(fed + [argv], now)[..1] == fed;
    ExpiredReplays(fx, d, k, now, now);
  }

  /** Every cut inside what a command feeds. */
  lemma DbCut(fx: Effect, d: Db, argv: Argv, now: int, left: nat)
    requires Is(argv, SET) && |argv| >= 3 ==> !Clashes(argv, 3)
    requires 0 < left < |TranslateAll(LiveExec(fx, d, argv, now).fed, now)|
    ensures var l := LiveExec(fx, d, argv, now);
            var parts := TranslateAll(l.fed, now);
            var cut := ExecDbAll(fx, d, parts[..|parts| - left]);
            var torn := left == 1 && TtlCommand(argv) && Fed(l, argv);
            && |argv| > 1
            && (!torn ==> |l.fed| > 1 && cut == ExpireIfNeeded(d, argv[1], now).d)
            && (torn ==> cut != l.d && (|l.fed| > 1 ==> cut != ExpireIfNeeded(d, argv[1], now).d)
                         && (cut == d <==> Holds(d, argv[1], ValueOf(argv))))
  {
    hide ExecDb, ExecDbAll, Translate, TranslateAll, Upper, HasTtl, Clashes, LiveExec, Is;
    var l := LiveExec(fx, d, argv, now);
    var parts := TranslateAll(l.fed, now);
    FedShape(fx, d, argv, now);
    NothingTranslated(now);
    if |argv| > 1 { DelTranslated(argv[1], now); }
    TranslateFed([], argv, now);
    assert [] + [argv] == [argv] && [] + Translate(argv, now) == Translate(argv, now);
    assert l.fed != [] && (|l.fed| == 1 ==> l.fed == [argv]);
    HowManyParts(fx, d, argv, now);
    if |l.fed| > 1 { CutAfterExpiry(fx, d, argv, now); }
    if TtlCommand(argv) { CutLosesDeadline(fx, d, argv, now); }
  }

  /** A log that ends inside a piece of work gives databases the server had before, in the midst of or
      after it, if and only if it does not end between a SET and its PEXPIREAT, or the key already held
      the value for good; and then not those after it. */
  lemma CutExactly(fx: Effect, dbs: seq<Db>, w: Work, left: nat)
    requires FeedableWork(w, |dbs|) && left > 0
    ensures var cut := CutDbs(fx, dbs, w, left);
            && (cut in Around(fx, dbs, w) <==> !Torn(fx, dbs, w, left) || HeldForGood(dbs, w))
            && (cut in Around(fx, dbs, w) ==> cut == dbs || cut == Between(fx, dbs, w))
  {
    hide ExecDbAll, TranslateAll, HasTtl, Clashes, LiveExec, Is, Holds, ExpireIfNeeded, AllFeedable, EventsDbs,
         ExecAcross;
    if w.Single? && w.ev.Command? {
      var Command(db, argv, now) := w.ev;
      var d := dbs[db];
      var parts := Parts(fx, d, w.ev);
      if left < |parts| {
        DbCut(fx, d, argv, now, left);
        var cut := ExecDbAll(fx, d, parts[..|parts| - left]);
        Updates(dbs, db, cut, d);
        Updates(dbs, db, cut, ExpireIfNeeded(d, argv[1], now).d);
        Updates(dbs, db, cut, LiveExec(fx, d, argv, now).d);
        assert dbs[db := d] == dbs;
      } else if TtlCommand(argv) && Fed(LiveExec(fx, d, argv, now), argv) {
        CutLosesDeadline(fx, d, argv, now);
      }
    } else if w.Single? {
      OtherEvents(fx, dbs[w.ev.db], w.ev);
    }
  }

  lemma Updates(dbs: seq<Db>, db: nat, x: Db, y: Db)
    requires db < |dbs|
    ensures dbs[db := x] == dbs[db := y] <==> x == y
  {
    assert dbs[db := x][db] == x && dbs[db := y][db] == y;
  }

  lemma OtherEvents(fx: Effect, d: Db, ev: Event)
    requires ev.Expire? || (ev.Wide? && Across(ev.argv))
    ensures |Parts(fx, d, ev)| <= 1
  {
    hide Across;
    if ev.Wide? { WideParts(fx, d, ev); } else { ExpiryTranslated(d, ev.key, ev.now); }
  }
}
