/** The commands that set deadlines, as a running master executes them: each method is proved to do what
    the feed's replay was proved to reproduce. */
module LiveCommands {
  import opened Common
  import opened Resp
  import opened Dataset
  import opened AofFeed

  class Master {
    var d: Db
    /** The commands handed to the append-only file. */
    var fed: seq<Argv>

    ghost predicate Did(sent: seq<Argv>, l: Live)
      reads this
    {
      d == l.d && fed == sent + l.fed
    }

    /** expireIfNeeded with keyIsExpired: a deadline of less than zero means none. */
    method ExpireIfNeeded(k: Bytes, now: int) returns (expired: bool)
      modifies this
      ensures Did(old(fed), AofFeed.ExpireIfNeeded(old(d), k, now))
      ensures expired <==> k in old(d.expires) && 0 <= old(d.expires)[k] < now
    {
      var when := if k in d.expires then d.expires[k] else -1;
      if when < 0 || now <= when { return false; }
      fed := fed + [[DEL, k]];
      d := Db(d.dict - {k}, d.expires - {k});
      expired := true;
    }

    method LookupKeyWrite(k: Bytes, now: int) returns (found: bool)
      modifies this
      ensures Did(old(fed), AofFeed.ExpireIfNeeded(old(d), k, now)) && found == (k in d.dict)
    {
      var _ := ExpireIfNeeded(k, now);
      found := k in d.dict;
    }

    /** expireGenericCommand. */
    method ExpireGenericCommand(argv: Argv, basetime: int, seconds: bool, now: int)
      requires IsExpire(argv) && seconds == (Unit(argv) == 1000) && basetime == if Relative(argv) then now else 0
      modifies this
      ensures Did(old(fed), LiveExpire(old(d), argv, now))
    {
      hide DecodeInt, Upper;
      var param := DecodeInt(argv[2]);
      if param.None? { return; }
      var when := param.value;
      if seconds { when := when * 1000; }
      when := when + basetime;
      var found := LookupKeyWrite(argv[1], now);
      if !found { return; }
      if when <= now {
        d := Db(d.dict - {argv[1]}, d.expires - {argv[1]});
        fed := fed + [[DEL, argv[1]]];
      } else {
        d := d.(expires := d.expires[argv[1] := when]);
        fed := fed + [argv];
      }
    }

    /** setGenericCommand. */
    method SetGenericCommand(argv: Argv, nx: bool, xx: bool, k: Bytes, v: Bytes, expire: Option<Bytes>, seconds: bool,
                             now: int)
      modifies this
      ensures expire.Some? && DecodeInt(expire.value).None? ==> Did(old(fed), Live(old(d), []))
      ensures expire.None? ==> Did(old(fed), LiveSetKey(old(d), argv, k, v, nx, xx, None, now))
      ensures expire.Some? && DecodeInt(expire.value).Some? ==>
                Did(old(fed), LiveSetKey(old(d), argv, k, v, nx, xx,
                                                 Some(DecodeInt(expire.value).value * if seconds then 1000 else 1),
                                                 now))
    {
      hide DecodeInt, Upper;
      var milliseconds := 0;
      if expire.Some? {
        if DecodeInt(expire.value).None? { return; }
        milliseconds := DecodeInt(expire.value).value;
        if milliseconds <= 0 { return; }
        if seconds { milliseconds := milliseconds * 1000; }
      }
      var found := LookupKeyWrite(k, now);
      if (nx && found) || (xx && !found) { return; }
      d := Db(d.dict[k := Str(v)], d.expires - {k});
      fed := fed + [argv];
      if expire.Some? { d := d.(expires := d.expires[k := now + milliseconds]); }
    }

    /** setCommand. */
    method SetCommand(argv: Argv, now: int)
      requires |argv| >= 3
      modifies this
      ensures Did(old(fed), LiveSet(old(d), argv, now))
    {
      hide DecodeInt, Upper, ParseSet, LiveSetKey;
      var r := SetOptions(argv);
      if r.None? { return; }
      var SetArgs(nx, xx, ex, _, expire) := r.value;
      SetGenericCommand(argv, nx, xx, argv[1], argv[2], expire, ex, now);
    }

    /** setexCommand and psetexCommand. */
    method SetExCommand(argv: Argv, now: int)
      requires IsSetEx(argv)
      modifies this
      ensures Did(old(fed), LiveSetEx(old(d), argv, now))
    {
      hide DecodeInt, Upper, LiveSetKey;
      MoreNames();
      SetGenericCommand(argv, false, false, argv[1], argv[3], Some(argv[2]), Is(argv, SETEX), now);
    }
  }

  /** The option loop of setCommand. */
  method SetOptions(argv: Argv) returns (r: Option<SetArgs>)
    requires |argv| >= 3
    ensures r == ParseSet(argv, 3, NO_ARGS)
  {
    hide Upper;
    var acc := NO_ARGS;
    var j := 3;
    while j < |argv|
      invariant 3 <= j <= |argv| && ParseSet(argv, j, acc) == ParseSet(argv, 3, NO_ARGS)
    {
      var a := Upper(argv[j]);
      var next := if j == |argv| - 1 then None else Some(argv[j + 1]);
      if a == NX && !acc.xx {
        acc := acc.(nx := true);
      } else if a == XX && !acc.nx {
        acc := acc.(xx := true);
      } else if a == EX && !acc.px && next.Some? {
        acc := acc.(ex := true, expire := next);
        j := j + 1;
      } else if a == PX && !acc.ex && next.Some? {
        acc := acc.(px := true, expire := next);
        j := j + 1;
      } else {
        return None;
      }
      j := j + 1;
    }
    r := Some(acc);
  }

  /** A deadline a command sets on a running master lies in the future, and one that does not deletes. */
  lemma ExpireOutcome(d: Db, argv: Argv, now: int)
    requires IsExpire(argv) && DecodeInt(argv[2]).Some?
    ensures var k, r := argv[1], LiveExpire(d, argv, now).d;
            var when := When(argv, DecodeInt(argv[2]).value, now);
            var gone := k in d.expires && 0 <= d.expires[k] < now;
            && (k in r.dict <==> k in d.dict && !gone && when > now)
            && (k in r.dict ==> r.dict[k] == d.dict[k] && k in r.expires && r.expires[k] == when > now)
            && r.dict - {k} == d.dict - {k} && r.expires - {k} == d.expires - {k}
  {
    hide DecodeInt, Upper;
  }
}
