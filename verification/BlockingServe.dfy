/** What serving blocked clients promises: queue order, no element lost or duplicated, and nobody left
    waiting for a key that has what they wait for. */
module BlockingServe {
  import opened Blocking
  import opened BlockingIndex

  // ---------- queue order ----------

  /** The clients of a queue blocked for one type, in order. */
  function Waiting(s: State, q: seq<Id>, t: Btype): seq<Id> {
    if q == [] then []
    else (if q[0] in s.clients && s.clients[q[0]].btype == t then [q[0]] else []) + Waiting(s, q[1..], t)
  }

  function Queue(s: State, k: Key): seq<Id> { if k in s.waiting then s.waiting[k] else [] }

  /** The clients that got a reply since the log had n entries, in order. */
  function Served(log: seq<(Id, Reply)>, n: nat): seq<Id>
    requires n <= |log|
  {
    seq(|log| - n, i requires 0 <= i < |log| - n => log[n + i].0)
  }

  lemma {:induction false} WaitingAppend(s: State, a: seq<Id>, b: seq<Id>, t: Btype)
    ensures Waiting(s, a + b, t) == Waiting(s, a, t) + Waiting(s, b, t)
  {
    if a == [] {
      assert a + b == b;
    } else {
      assert (a + b)[1..] == a[1..] + b;
      WaitingAppend(s, a[1..], b, t);
    }
  }

  lemma {:induction false} WaitingSame(s: State, r: State, q: seq<Id>, t: Btype)
    requires forall c | c in q :: c in s.clients && c in r.clients && s.clients[c] == r.clients[c]
    ensures Waiting(s, q, t) == Waiting(r, q, t)
  {
    if q != [] { WaitingSame(s, r, q[1..], t); }
  }

  lemma WaitingOne(s: State, c: Id, t: Btype)
    ensures Waiting(s, [c], t) == if c in s.clients && s.clients[c].btype == t then [c] else []
  {
    var q := [c];
    assert q[1..] == [];
  }

  /** A client of another type moves to the tail: the others keep their order. */
  lemma RotateWaiting(s: State, k: Key, n: nat, t: Btype)
    requires HasHead(s, k) && s.clients[s.waiting[k][0]].btype != t
    requires 0 < n <= |s.waiting[k]| && Waiting(s, s.waiting[k][n..], t) == []
    ensures var q, r := s.waiting[k], Rotated(s, k);
            && |r.waiting[k]| == |q|
            && Waiting(r, r.waiting[k], t) == Waiting(s, q, t)
            && Waiting(r, r.waiting[k][n - 1..], t) == []
  {
    hide Waiting;
    var q := s.waiting[k];
    var r := Rotated(s, k);
    assert q == [q[0]] + q[1..];
    WaitingAppend(s, [q[0]], q[1..], t);
    WaitingOne(s, q[0], t);
    assert r.waiting[k][n - 1..] == q[n..] + [q[0]];
    WaitingAppend(r, q[1..], [q[0]], t);
    WaitingAppend(r, q[n..], [q[0]], t);
    WaitingOne(r, q[0], t);
    SameClients(s, r, q[1..], t);
    SameClients(s, r, q[n..], t);
    assert Waiting(s, q[1..], t) + [] == Waiting(s, q[1..], t);
  }

  lemma {:induction false} SameClients(s: State, r: State, q: seq<Id>, t: Btype)
    requires r.clients == s.clients
    ensures Waiting(r, q, t) == Waiting(s, q, t)
  {
    if q != [] { SameClients(s, r, q[1..], t); }
  }

  /** Unblocking the head of a queue drops it, and frees the queue if it was alone. */
  lemma UnblockHead(s: State, k: Key)
    requires Index(s) && k in s.waiting
    ensures var c, r := s.waiting[k][0], Unblocked(s, s.waiting[k][0]);
            Queue(r, k) == s.waiting[k][1..] && c !in s.waiting[k][1..]
  {
    var q := s.waiting[k];
    assert QueueOk(s, k);
    assert ClientOk(s, q[0]);
    WithoutHead(q);
    TailNoDup(q);
  }

  lemma UnblockIgnoresDb(s: State, db: map<Key, Value>, c: Id)
    requires c in s.clients
    ensures Unblocked(s.(db := db), c).waiting == Unblocked(s, c).waiting
  {
    hide DequeueAll;
  }

  lemma PushKeepsWaiting(s: State, dst: Key, x: Elem)
    requires dst in s.db ==> s.db[dst].List?
    ensures PushedTo(s, dst, x).waiting == s.waiting
  {
  }

  /** Serving a client leaves the queues that unblocking it leaves. */
  lemma ServedListWaiting(s: State, k: Key, c: Id)
    requires c in s.clients && k in s.db && s.db[k].List? && s.db[k].xs != []
    ensures ServedList(s, k, c).waiting == Unblocked(s, c).waiting
  {
    hide Unblocked, Popped1, Pushed1, PushedTo;
    var cl := s.clients[c];
    var (x, rest) := Popped1(s.db[k].xs, cl.front);
    var db := s.db[k := List(rest)];
    UnblockIgnoresDb(s, db, c);
    var s1 := Unblocked(s.(db := db), c);
    if cl.target.Some? && (cl.target.value in s1.db ==> s1.db[cl.target.value].List?) {
      PushKeepsWaiting(s1, cl.target.value, x);
    }
  }

  lemma ServedListQueue(s: State, k: Key)
    requires Index(s) && k in s.waiting && k in s.db && s.db[k].List? && s.db[k].xs != []
    ensures var c, r := s.waiting[k][0], ServedList(s, k, s.waiting[k][0]);
            && c !in s.waiting[k][1..]
            && Queue(r, k) == s.waiting[k][1..]
            && r.clients == s.clients[c := IDLE.(queued := true)]
            && |r.log| == |s.log| + 1 && r.log[..|s.log|] == s.log && r.log[|s.log|].0 == c
            && k in r.db && r.db[k].List?
  {
    hide ServedList, Unblocked, Index;
    HeadWaits(s, k);
    var c := s.waiting[k][0];
    UnblockHead(s, k);
    ServedListWaiting(s, k, c);
    ServedListClients(s, k, c);
    OneReply(s, k, c);
  }

  /** What is left of the queue once its head is gone. */
  lemma AfterHead(s: State, r: State, k: Key, n: nat, t: Btype)
    requires Index(s) && k in s.waiting && 0 < n <= |s.waiting[k]| && Waiting(s, s.waiting[k][n..], t) == []
    requires var c := s.waiting[k][0];
             c !in s.waiting[k][1..] && c in s.clients && s.clients[c].btype == t
             && r.clients == s.clients[c := IDLE.(queued := true)] && Queue(r, k) == s.waiting[k][1..]
    ensures Waiting(s, s.waiting[k], t) == [s.waiting[k][0]] + Waiting(r, Queue(r, k), t)
    ensures n - 1 <= |Queue(r, k)| && Waiting(r, Queue(r, k)[n - 1..], t) == []
  {
    hide Waiting;
    var q := s.waiting[k];
    assert QueueOk(s, k);
    assert q == [q[0]] + q[1..];
    WaitingAppend(s, [q[0]], q[1..], t);
    WaitingOne(s, q[0], t);
    assert forall d | d in q[1..] :: d in q;
    WaitingSame(s, r, q[1..], t);
    assert q[1..][n - 1..] == q[n..];
    assert forall d | d in q[n..] :: d in q[1..][n - 1..];
    WaitingSame(s, r, q[n..], t);
  }

  lemma ServedNext(log: seq<(Id, Reply)>, mid: seq<(Id, Reply)>, n: nat)
    requires n < |mid| == n + 1 <= |log| && log[..n + 1] == mid
    ensures Served(log, n) == [mid[n].0] + Served(log, n + 1)
  {
    assert log[n] == mid[n];
  }

  /** The clients waiting for the list are served from the head of the queue on: those served and
      those left make up the queue, and some are left only if the list is empty. */
  lemma {:induction false} ListServedInOrder(s: State, k: Key, n: nat)
    requires Index(s) && n <= |Queue(s, k)| && Waiting(s, Queue(s, k)[n..], OnList) == []
    requires k in s.db && s.db[k].List?
    ensures var r := ServeList(s, k, n);
            && |s.log| <= |r.log| && r.log[..|s.log|] == s.log
            && Served(r.log, |s.log|) + Waiting(r, Queue(r, k), OnList) == Waiting(s, Queue(s, k), OnList)
            && k in r.db && r.db[k].List?
            && (r.db[k].xs == [] || Waiting(r, Queue(r, k), OnList) == [])
    decreases n
  {
    hide ServedList, Waiting, Index, Rotated;
    var q := Queue(s, k);
    var r := ServeList(s, k, n);
    if n == 0 {
      assert q[0..] == q;
      assert Served(s.log, |s.log|) == [];
    } else {
      HeadWaits(s, k);
      var c := q[0];
      if !s.clients[c].btype.OnList? {
        var s1 := Rotated(s, k);
        RotateWaiting(s, k, n, OnList);
        RotateKeepsIndex(s, k);
        RotatedOnly(s, k);
        ListServedInOrder(s1, k, n - 1);
      } else if s.db[k].xs == [] {
        assert Served(s.log, |s.log|) == [];
      } else {
        var s1 := ServedList(s, k, c);
        ServedListQueue(s, k);
        AfterHead(s, s1, k, n, OnList);
        ServedListKeepsIndex(s, k, c);
        ListServedInOrder(s1, k, n - 1);
        ServedNext(r.log, s1.log, |s.log|);
        assert r.log[..|s.log|] == r.log[..|s.log| + 1][..|s.log|] == s.log;
      }
    }
  }

  lemma RotatedOnly(s: State, k: Key)
    requires HasHead(s, k)
    ensures var r := Rotated(s, k); r == s.(waiting := r.waiting) && k in r.waiting
  {
  }

  lemma ServedListKeepsIndex(s: State, k: Key, c: Id)
    requires Index(s) && c in s.clients && s.clients[c].blocked
    requires k in s.db && s.db[k].List? && s.db[k].xs != []
    ensures Index(ServedList(s, k, c))
  {
    hide Index, DequeueAll, Popped1, Pushed1;
    var (x, rest) := Popped1(s.db[k].xs, s.clients[c].front);
    var s0 := s.(db := s.db[k := List(rest)]);
    SameIndex(s, s0);
    UnblockKeepsIndex(s0, c);
    var s1 := Unblocked(s0, c);
    var r := ServedList(s, k, c);
    SameIndex(s1, r);
  }

  predicate AllBlpop(s: State, q: seq<Id>) {
    forall c | c in q && c in s.clients && s.clients[c].btype.OnList? :: s.clients[c].front && s.clients[c].target.None?
  }

  /** Replies from entry n on that hand out the elements of xs in order, and what is left of xs. */
  ghost predicate HandsOut(r: State, k: Key, n: nat, xs: seq<Elem>) {
    && n <= |r.log| <= n + |xs|
    && k in r.db && r.db[k] == List(xs[|r.log| - n..])
    && forall i | n <= i < |r.log| :: r.log[i].1 == Popped(k, xs[i - n])
  }

  lemma HandsOutMore(r: State, k: Key, n: nat, xs: seq<Elem>)
    requires xs != [] && HandsOut(r, k, n + 1, xs[1..]) && r.log[n].1 == Popped(k, xs[0])
    ensures HandsOut(r, k, n, xs)
  {
    assert xs[1..][|r.log| - (n + 1)..] == xs[|r.log| - n..];
  }

  /** When all of them called BLPOP, the i-th served gets the i-th element. */
  lemma {:induction false} BlpopElementsInOrder(s: State, k: Key, n: nat)
    requires Index(s) && n <= |Queue(s, k)| && k in s.db && s.db[k].List? && AllBlpop(s, Queue(s, k))
    ensures HandsOut(ServeList(s, k, n), k, |s.log|, s.db[k].xs)
    decreases n
  {
    hide ServedList, Index, Rotated;
    var q, xs := Queue(s, k), s.db[k].xs;
    if n > 0 {
      HeadWaits(s, k);
      var c := q[0];
      if !s.clients[c].btype.OnList? {
        RotateKeepsIndex(s, k);
        RotatedOnly(s, k);
        RotatedQueue(s, k);
        BlpopElementsInOrder(Rotated(s, k), k, n - 1);
      } else if xs != [] {
        var s1 := ServedList(s, k, c);
        ServedListQueue(s, k);
        ServedListKeepsIndex(s, k, c);
        ServedBlpop(s, k, c);
        assert forall d | d in q[1..] :: d in q;
        BlpopElementsInOrder(s1, k, n - 1);
        LogKept(s1, k, n - 1);
        var r := ServeList(s1, k, n - 1);
        assert r.log[|s.log|] == s1.log[|s.log|];
        HandsOutMore(r, k, |s.log|, xs);
      }
    }
  }

  lemma RotatedQueue(s: State, k: Key)
    requires HasHead(s, k)
    ensures |Queue(Rotated(s, k), k)| == |Queue(s, k)| && forall c | c in Queue(Rotated(s, k), k) :: c in Queue(s, k)
  {
  }

  lemma ServedBlpop(s: State, k: Key, c: Id)
    requires c in s.clients && k in s.db && s.db[k].List? && s.db[k].xs != []
    requires s.clients[c].front && s.clients[c].target.None?
    ensures var r, xs := ServedList(s, k, c), s.db[k].xs;
            r.db == s.db[k := List(xs[1..])] && r.log == s.log + [(c, Popped(k, xs[0]))]
  {
  }

  lemma {:induction false} LogKept(s: State, k: Key, n: nat)
    ensures |s.log| <= |ServeList(s, k, n).log| && ServeList(s, k, n).log[..|s.log|] == s.log
    decreases n
  {
    hide ServedList;
    if n == 0 || !HasHead(s, k) || k !in s.db || !s.db[k].List? {
    } else {
      var c := s.waiting[k][0];
      if !s.clients[c].btype.OnList? {
        LogKept(Rotated(s, k), k, n - 1);
      } else if s.db[k].xs != [] {
        var s1 := ServedList(s, k, c);
        OneReply(s, k, c);
        LogKept(s1, k, n - 1);
        var log := ServeList(s, k, n).log;
        assert log[..|s.log|] == log[..|s1.log|][..|s.log|];
      }
    }
  }

  lemma OneReply(s: State, k: Key, c: Id)
    requires c in s.clients && k in s.db && s.db[k].List? && s.db[k].xs != []
    ensures |ServedList(s, k, c).log| == |s.log| + 1 && ServedList(s, k, c).log[..|s.log|] == s.log
    ensures ServedList(s, k, c).log[|s.log|].0 == c
    ensures k in ServedList(s, k, c).db && ServedList(s, k, c).db[k].List?
  {
    hide ServedList, Popped1, Pushed1;
    ServedListDb(s, k, c);
  }

  // ---------- sorted sets ----------

  lemma ServedZSetQueue(s: State, k: Key)
    requires Index(s) && k in s.waiting && k in s.db && s.db[k].ZSet? && s.db[k].zs != []
    ensures var c, r := s.waiting[k][0], ServedZSet(s, k, s.waiting[k][0]);
            && c !in s.waiting[k][1..]
            && Queue(r, k) == s.waiting[k][1..]
            && r.clients == s.clients[c := IDLE.(queued := true)]
            && |r.log| == |s.log| + 1 && r.log[..|s.log|] == s.log && r.log[|s.log|].0 == c
            && (k in r.db ==> r.db[k].ZSet? && r.db[k].zs != [])
            && Index(r)
  {
    hide DequeueAll, Popped1, Index;
    HeadWaits(s, k);
    UnblockHead(s, k);
    var c := s.waiting[k][0];
    UnblockKeepsIndex(s, c);
    SameIndex(Unblocked(s, c), ServedZSet(s, k, c));
  }

  /** One turn of the loop. */
  lemma ZSetTurn(s: State, k: Key, n: nat)
    ensures n == 0 || !HasHead(s, k) || k !in s.db || !s.db[k].ZSet? || s.db[k].zs == [] ==> ServeZSet(s, k, n) == s
    ensures n > 0 && HasHead(s, k) && k in s.db && s.db[k].ZSet? && s.db[k].zs != [] ==>
              var c := s.waiting[k][0];
              ServeZSet(s, k, n)
              == ServeZSet(if s.clients[c].btype.OnZSet? then ServedZSet(s, k, c) else Rotated(s, k), k, n - 1)
  {
    hide ServedZSet, Rotated;
  }

  lemma NobodyServed(log: seq<(Id, Reply)>)
    ensures Served(log, |log|) == []
  {
  }

  lemma {:induction false} ZSetServedInOrder(s: State, k: Key, n: nat)
    requires Index(s) && n <= |Queue(s, k)| && Waiting(s, Queue(s, k)[n..], OnZSet) == []
    requires k in s.db ==> s.db[k].ZSet? && s.db[k].zs != []
    ensures var r := ServeZSet(s, k, n);
            && |s.log| <= |r.log| && r.log[..|s.log|] == s.log
            && Served(r.log, |s.log|) + Waiting(r, Queue(r, k), OnZSet) == Waiting(s, Queue(s, k), OnZSet)
            && (k !in r.db || Waiting(r, Queue(r, k), OnZSet) == [])
            && (k in r.db ==> r.db[k].ZSet? && r.db[k].zs != [])
    decreases n
  {
    hide ServedZSet, Waiting, Index, Rotated, ServeZSet, Served;
    ZSetTurn(s, k, n);
    var q := Queue(s, k);
    var r := ServeZSet(s, k, n);
    if n == 0 || k !in s.db {
      assert n == 0 ==> q[0..] == q;
      NobodyServed(s.log);
    } else {
      HeadWaits(s, k);
      var c := q[0];
      if !s.clients[c].btype.OnZSet? {
        var s1 := Rotated(s, k);
        RotateWaiting(s, k, n, OnZSet);
        RotateKeepsIndex(s, k);
        RotatedOnly(s, k);
        ZSetServedInOrder(s1, k, n - 1);
      } else {
        var s1 := ServedZSet(s, k, c);
        ServedZSetQueue(s, k);
        AfterHead(s, s1, k, n, OnZSet);
        ZSetServedInOrder(s1, k, n - 1);
        ServedNext(r.log, s1.log, |s.log|);
        assert r.log[..|s.log|] == r.log[..|s.log| + 1][..|s.log|] == s.log;
      }
    }
  }

  // ---------- nobody waits for what is there ----------

  predicate Wants(t: Btype, v: Value) { (t.OnList? && v.List?) || (t.OnZSet? && v.ZSet?) }

  /** Nobody in the queue of k wants what k holds. */
  ghost predicate Quiet(s: State, k: Key) {
    k in s.db && k in s.waiting ==>
      forall c | c in s.waiting[k] && c in s.clients :: !Wants(s.clients[c].btype, s.db[k])
  }

  /** All keys that have not been signalled, and are not among the exceptions, are quiet. */
  ghost predicate AllQuiet(s: State, except: set<Key>) {
    forall k | k in s.db && k !in s.readySet && k !in except :: Quiet(s, k)
  }

  lemma {:induction false} NoWaiters(s: State, q: seq<Id>, t: Btype, c: Id)
    requires Waiting(s, q, t) == [] && c in q && c in s.clients
    ensures s.clients[c].btype != t
  {
    if q[0] != c { NoWaiters(s, q[1..], t, c); }
  }

  lemma QuietQueue(s: State, k: Key, t: Btype)
    requires Waiting(s, Queue(s, k), t) == []
    requires k in s.db ==> s.db[k].List? == t.OnList? && s.db[k].ZSet? == t.OnZSet?
    ensures Quiet(s, k)
  {
    if k in s.db && k in s.waiting {
      forall c | c in s.waiting[k] && c in s.clients ensures !Wants(s.clients[c].btype, s.db[k]) {
        NoWaiters(s, s.waiting[k], t, c);
      }
    }
  }

  /** A client that is gone waits for nothing any more. */
  lemma UnblockKeepsQuiet(s: State, c: Id, k: Key)
    requires Index(s) && c in s.clients && s.clients[c].blocked && Quiet(s, k)
    ensures Quiet(Unblocked(s, c), k)
  {
    var r := Unblocked(s, c);
    assert ClientOk(s, c);
    if k in r.db && k in r.waiting {
      assert QueueOk(s, k);
      WithoutMeans(s.waiting[k], c);
    }
  }

  lemma UnblockKeepsAllQuiet(s: State, c: Id, except: set<Key>)
    requires Index(s) && c in s.clients && s.clients[c].blocked && AllQuiet(s, except)
    ensures AllQuiet(Unblocked(s, c), except)
  {
    hide Index, Quiet, DequeueAll;
    var r := Unblocked(s, c);
    forall k | k in r.db && k !in r.readySet && k !in except ensures Quiet(r, k) { UnblockKeepsQuiet(s, c, k); }
  }

  /** Changing one value to another of the same kind, or removing it, wakes nobody. */
  lemma SameKindKeepsQuiet(s: State, r: State, k: Key, except: set<Key>)
    requires AllQuiet(s, except) && r == s.(db := r.db, log := r.log)
    requires forall j | j in r.db && j != k :: j in s.db && r.db[j] == s.db[j]
    requires k in except
             || (k in r.db ==> k in s.db && r.db[k].List? == s.db[k].List? && r.db[k].ZSet? == s.db[k].ZSet?)
    ensures AllQuiet(r, except)
  {
    forall j | j in r.db && j !in r.readySet && j !in except ensures Quiet(r, j) { assert Quiet(s, j); }
  }

  /** A new value is signalled if anyone waits for its key. */
  lemma AddKeepsQuiet(s: State, k: Key, v: Value, except: set<Key>)
    requires AllQuiet(s, except)
    ensures AllQuiet(Added(s, k, v), except)
  {
    var r := Added(s, k, v);
    forall j | j in r.db && j !in r.readySet && j !in except ensures Quiet(r, j) {
      if j != k { assert Quiet(s, j); }
    }
  }

  lemma ServedListKeepsQuiet(s: State, k: Key, c: Id)
    requires Index(s) && c in s.clients && s.clients[c].blocked && AllQuiet(s, {k})
    requires k in s.db && s.db[k].List? && s.db[k].xs != []
    ensures AllQuiet(ServedList(s, k, c), {k})
  {
    hide Index, Unblocked, Popped1, Pushed1, AllQuiet;
    var cl := s.clients[c];
    var (x, rest) := Popped1(s.db[k].xs, cl.front);
    var s0 := s.(db := s.db[k := List(rest)]);
    SameIndex(s, s0);
    SameKindKeepsQuiet(s, s0, k, {k});
    UnblockKeepsAllQuiet(s0, c, {k});
    var s1 := Unblocked(s0, c);
    UnblockKeepsDb(s0, c);
    var r := ServedList(s, k, c);
    if cl.target.Some? && (cl.target.value in s1.db ==> s1.db[cl.target.value].List?) {
      var dst := cl.target.value;
      if dst !in s1.db {
        AddKeepsQuiet(s1, dst, List([]), {k});
        SameKindKeepsQuiet(Added(s1, dst, List([])), r, dst, {k});
      } else {
        SameKindKeepsQuiet(s1, r, dst, {k});
      }
    } else {
      SameKindKeepsQuiet(s1, r, k, {k});
    }
  }

  lemma UnblockKeepsDb(s: State, c: Id)
    requires c in s.clients
    ensures Unblocked(s, c).db == s.db && Unblocked(s, c).log == s.log
  {
  }

  lemma RotateKeepsQuiet(s: State, k: Key)
    requires HasHead(s, k) && AllQuiet(s, {k})
    ensures AllQuiet(Rotated(s, k), {k})
  {
    var r := Rotated(s, k);
    forall j | j in r.db && j !in r.readySet && j !in {k} ensures Quiet(r, j) { assert Quiet(s, j); }
  }

  lemma {:induction false} ServeListKeepsQuiet(s: State, k: Key, n: nat)
    requires Index(s) && AllQuiet(s, {k})
    ensures AllQuiet(ServeList(s, k, n), {k})
    decreases n
  {
    hide Index, AllQuiet, ServedList, Rotated;
    if n == 0 || !HasHead(s, k) || k !in s.db || !s.db[k].List? {
    } else {
      var c := s.waiting[k][0];
      HeadWaits(s, k);
      if !s.clients[c].btype.OnList? {
        RotateKeepsIndex(s, k);
        RotateKeepsQuiet(s, k);
        ServeListKeepsQuiet(Rotated(s, k), k, n - 1);
      } else if s.db[k].xs != [] {
        ServedListKeepsIndex(s, k, c);
        ServedListKeepsQuiet(s, k, c);
        ServeListKeepsQuiet(ServedList(s, k, c), k, n - 1);
      }
    }
  }

  lemma {:induction false} ServeZSetKeepsQuiet(s: State, k: Key, n: nat)
    requires Index(s) && AllQuiet(s, {k})
    ensures AllQuiet(ServeZSet(s, k, n), {k})
    decreases n
  {
    hide Index, AllQuiet, Unblocked, Rotated, Popped1;
    if n == 0 || !HasHead(s, k) || k !in s.db || !s.db[k].ZSet? || s.db[k].zs == [] {
    } else {
      var c := s.waiting[k][0];
      HeadWaits(s, k);
      if !s.clients[c].btype.OnZSet? {
        RotateKeepsIndex(s, k);
        RotateKeepsQuiet(s, k);
        ServeZSetKeepsQuiet(Rotated(s, k), k, n - 1);
      } else {
        UnblockKeepsIndex(s, c);
        UnblockKeepsAllQuiet(s, c, {k});
        UnblockKeepsDb(s, c);
        SameIndex(Unblocked(s, c), ServedZSet(s, k, c));
        SameKindKeepsQuiet(Unblocked(s, c), ServedZSet(s, k, c), k, {k});
        ServeZSetKeepsQuiet(ServedZSet(s, k, c), k, n - 1);
      }
    }
  }

  /** No collection is empty, apart from the exceptions. */
  ghost predicate NoEmpty(s: State, except: set<Key>) {
    forall k | k in s.db && k !in except :: s.db[k] != List([]) && s.db[k] != ZSet([])
  }

  lemma HandleKeyQuiets(s: State, k: Key)
    requires Index(s) && AllQuiet(s, {}) && NoEmpty(s, {})
    ensures AllQuiet(HandleKey(s, k), {})
  {
    hide Index, ServeList, ServeZSet, Waiting;
    var s0 := s.(readySet := s.readySet - {k});
    SameIndex(s, s0);
    assert AllQuiet(s0, {k}) by {
      forall j | j in s0.db && j !in s0.readySet && j !in {k} ensures Quiet(s0, j) { assert Quiet(s, j); }
    }
    var n := QueueLength(s, k);
    var r := HandleKey(s, k);
    NoQueue(s0);
    assert Queue(s0, k)[n..] == [];
    if k in s.db && s.db[k].List? {
      ServeListKeepsQuiet(s0, k, n);
      ListServedInOrder(s0, k, n);
      var s1 := ServeList(s0, k, n);
      if s1.db[k].xs != [] { QuietQueue(s1, k, OnList); }
      Settle(s1, r, k);
    } else if k in s.db && s.db[k].ZSet? {
      ServeZSetKeepsQuiet(s0, k, n);
      ZSetServedInOrder(s0, k, n);
      if k in r.db { QuietQueue(r, k, OnZSet); }
      Settle(r, r, k);
    } else {
      Settle(s0, s0, k);
    }
  }

  lemma NoQueue(s: State)
    ensures Waiting(s, [], OnList) == [] && Waiting(s, [], OnZSet) == []
  {
  }

  /** Once the exception is quiet or gone, there is none. */
  lemma Settle(s: State, r: State, k: Key)
    requires AllQuiet(s, {k}) && (r == s || r == s.(db := s.db - {k})) && (k in r.db ==> Quiet(r, k))
    ensures AllQuiet(r, {})
  {
    forall j | j in r.db && j !in r.readySet ensures Quiet(r, j) {
      if j != k { assert Quiet(s, j); }
    }
  }

  // ---------- no empty collections ----------

  lemma ServedListKeepsNoEmpty(s: State, k: Key, c: Id)
    requires c in s.clients && k in s.db && s.db[k].List? && s.db[k].xs != [] && NoEmpty(s, {k})
    ensures NoEmpty(ServedList(s, k, c), {k})
  {
    hide ServedList, Popped1, Pushed1;
    ServedListDb(s, k, c);
  }

  lemma {:induction false} ServeListKeepsNoEmpty(s: State, k: Key, n: nat)
    requires NoEmpty(s, {k})
    ensures NoEmpty(ServeList(s, k, n), {k})
    decreases n
  {
    hide ServedList;
    if n == 0 || !HasHead(s, k) || k !in s.db || !s.db[k].List? {
    } else {
      var c := s.waiting[k][0];
      if !s.clients[c].btype.OnList? {
        ServeListKeepsNoEmpty(Rotated(s, k), k, n - 1);
      } else if s.db[k].xs != [] {
        ServedListKeepsNoEmpty(s, k, c);
        ServeListKeepsNoEmpty(ServedList(s, k, c), k, n - 1);
      }
    }
  }

  lemma {:induction false} ServeZSetKeepsNoEmpty(s: State, k: Key, n: nat)
    requires NoEmpty(s, {})
    ensures NoEmpty(ServeZSet(s, k, n), {})
    decreases n
  {
    hide Unblocked, Popped1;
    if n == 0 || !HasHead(s, k) || k !in s.db || !s.db[k].ZSet? || s.db[k].zs == [] {
    } else {
      var c := s.waiting[k][0];
      if !s.clients[c].btype.OnZSet? {
        ServeZSetKeepsNoEmpty(Rotated(s, k), k, n - 1);
      } else {
        UnblockKeepsDb(s, c);
        ServeZSetKeepsNoEmpty(ServedZSet(s, k, c), k, n - 1);
      }
    }
  }

  lemma HandleKeyKeepsNoEmpty(s: State, k: Key)
    requires NoEmpty(s, {}) && Index(s)
    ensures NoEmpty(HandleKey(s, k), {})
  {
    hide Index, ServeList, ServeZSet, Waiting;
    var s0 := s.(readySet := s.readySet - {k});
    var n := QueueLength(s, k);
    if k in s.db && s.db[k].List? {
      SameIndex(s, s0);
      NoQueue(s0);
      assert Queue(s0, k)[n..] == [];
      ListServedInOrder(s0, k, n);
      ServeListKeepsNoEmpty(s0, k, n);
    } else if k in s.db && s.db[k].ZSet? {
      ServeZSetKeepsNoEmpty(s0, k, n);
    }
  }

  /** When all ready keys have been worked through, nobody is left waiting for a list on a key that
      holds a list, nor for a sorted set on a key that holds one. */
  lemma {:induction false} HandleQuiets(s: State, l: seq<Key>)
    requires Inv(s, l) && AllQuiet(s, {}) && NoEmpty(s, {})
    ensures AllQuiet(Handle(s, l), {}) && NoEmpty(Handle(s, l), {})
    decreases |Waiters(s)|, |l| + |s.ready|, |s.ready|
  {
    hide Index, Counters, ReprocessOk, ReadyOk, HandleKey, NoEmpty;
    if l != [] {
      HandleKeyMeasure(s, l[0]);
      HandleKeyKeepsInv(s, l);
      HandleKeyQuiets(s, l[0]);
      HandleKeyKeepsNoEmpty(s, l[0]);
      HandleQuiets(HandleKey(s, l[0]), l[1..]);
    } else if s.ready != [] {
      SwapKeepsInv(s);
      SwapKeepsQuiet(s);
      HandleQuiets(s.(ready := []), s.ready);
    }
  }

  lemma SwapKeepsQuiet(s: State)
    requires AllQuiet(s, {}) && NoEmpty(s, {})
    ensures AllQuiet(s.(ready := []), {}) && NoEmpty(s.(ready := []), {})
  {
    var r := s.(ready := []);
    forall k | k in r.db && k !in r.readySet ensures Quiet(r, k) { assert Quiet(s, k); }
  }

  // ---------- conservation ----------

  function Contents(v: Value): multiset<Elem> {
    match v
    case List(xs) => multiset(xs)
    case ZSet(zs) => multiset(zs)
    case Other => multiset{}
  }

  function Elems(db: map<Key, Value>, k: Key): multiset<Elem> { if k in db then Contents(db[k]) else multiset{} }

  /** All elements of the lists and sorted sets at the given keys. */
  function Stored(db: map<Key, Value>, ks: seq<Key>): multiset<Elem> {
    if ks == [] then multiset{} else Elems(db, ks[0]) + Stored(db, ks[1..])
  }

  /** All elements given to clients and kept nowhere else. */
  function Delivered(log: seq<(Id, Reply)>): multiset<Elem> {
    if log == [] then multiset{}
    else
      var r := log[|log| - 1].1;
      Delivered(log[..|log| - 1]) + if r.Popped? then multiset{r.elem} else multiset{}
  }

  lemma {:induction false} StoredSame(db: map<Key, Value>, db': map<Key, Value>, ks: seq<Key>, k: Key)
    requires k !in ks && forall j | j != k :: Elems(db', j) == Elems(db, j)
    ensures Stored(db', ks) == Stored(db, ks)
  {
    if ks != [] { StoredSame(db, db', ks[1..], k); }
  }

  lemma {:induction false} StoredChange(db: map<Key, Value>, db': map<Key, Value>, ks: seq<Key>, k: Key)
    requires NoDup(ks) && k in ks && forall j | j != k :: Elems(db', j) == Elems(db, j)
    ensures Stored(db', ks) + Elems(db, k) == Stored(db, ks) + Elems(db', k)
  {
    hide Elems;
    TailNoDup(ks);
    if ks[0] == k {
      StoredSame(db, db', ks[1..], k);
      var t := Stored(db, ks[1..]);
      assert Elems(db', k) + t + Elems(db, k) == Elems(db, k) + t + Elems(db', k);
    } else {
      StoredChange(db, db', ks[1..], k);
      var e, t, t' := Elems(db, ks[0]), Stored(db, ks[1..]), Stored(db', ks[1..]);
      assert e + t' + Elems(db, k) == e + (t' + Elems(db, k));
      assert e + t + Elems(db', k) == e + (t + Elems(db', k));
    }
  }

  lemma Cancel(a: multiset<Elem>, b: multiset<Elem>, m: multiset<Elem>)
    requires a + m == b + m
    ensures a == b
  {
    forall x ensures a[x] == b[x] {
      assert (a + m)[x] == a[x] + m[x] && (b + m)[x] == b[x] + m[x];
    }
  }

  /** One key has x less than before, and nothing else has changed. */
  lemma TakenOut(db: map<Key, Value>, db': map<Key, Value>, ks: seq<Key>, k: Key, x: Elem)
    requires NoDup(ks) && k in ks && forall j | j != k :: Elems(db', j) == Elems(db, j)
    requires Elems(db', k) + multiset{x} == Elems(db, k)
    ensures Stored(db', ks) + multiset{x} == Stored(db, ks)
  {
    hide Elems, Stored, NoDup;
    StoredChange(db, db', ks, k);
    var m := Elems(db', k);
    assert Stored(db', ks) + multiset{x} + m == Stored(db', ks) + (m + multiset{x});
    Cancel(Stored(db', ks) + multiset{x}, Stored(db, ks), m);
  }

  lemma StoreLess(db: map<Key, Value>, k: Key, v: Value, ks: seq<Key>, x: Elem)
    requires NoDup(ks) && k in ks && Contents(v) + multiset{x} == Elems(db, k)
    ensures Stored(db[k := v], ks) + multiset{x} == Stored(db, ks)
  {
    hide Contents, Stored, NoDup;
    TakenOut(db, db[k := v], ks, k, x);
  }

  lemma StoreMore(db: map<Key, Value>, k: Key, v: Value, ks: seq<Key>, x: Elem)
    requires NoDup(ks) && k in ks && Contents(v) == Elems(db, k) + multiset{x}
    ensures Stored(db[k := v], ks) == Stored(db, ks) + multiset{x}
  {
    hide Contents, Stored, NoDup;
    TakenOut(db[k := v], db, ks, k, x);
  }

  lemma PopElems(xs: seq<Elem>, front: bool)
    requires xs != []
    ensures var (x, rest) := Popped1(xs, front); multiset(rest) + multiset{x} == multiset(xs)
  {
    var n := |xs| - 1;
    assert xs == [xs[0]] + xs[1..];
    assert xs == xs[..n] + [xs[n]];
  }

  lemma NoContents()
    ensures Contents(List([])) == multiset{}
  {
  }

  lemma ListContents(xs: seq<Elem>, rest: seq<Elem>, x: Elem)
    requires multiset(rest) + multiset{x} == multiset(xs)
    ensures Contents(List(rest)) + multiset{x} == Contents(List(xs))
  {
  }

  lemma ZSetContents(zs: seq<Elem>, rest: seq<Elem>, x: Elem)
    requires multiset(rest) + multiset{x} == multiset(zs)
    ensures Contents(ZSet(rest)) + multiset{x} == Contents(ZSet(zs))
    ensures rest == [] ==> multiset{} + multiset{x} == Contents(ZSet(zs))
  {
  }

  lemma PushedContents(xs: seq<Elem>, x: Elem, front: bool)
    ensures Contents(List(Pushed1(xs, x, front))) == Contents(List(xs)) + multiset{x}
    ensures Contents(List([x] + xs)) == Contents(List(xs)) + multiset{x}
  {
  }

  lemma DeliveredNext(log: seq<(Id, Reply)>, c: Id, r: Reply)
    ensures Delivered(log + [(c, r)]) == Delivered(log) + if r.Popped? then multiset{r.elem} else multiset{}
  {
    var all := log + [(c, r)];
    assert all[..|all| - 1] == log;
  }

  ghost predicate Conserves(s: State, r: State, ks: seq<Key>) {
    Stored(r.db, ks) + Delivered(r.log) == Stored(s.db, ks) + Delivered(s.log)
  }

  /** The keys named contain the targets of all clients. */
  predicate Covers(s: State, ks: seq<Key>) {
    forall c | c in s.clients && s.clients[c].target.Some? :: s.clients[c].target.value in ks
  }

  lemma ServedListDb(s: State, k: Key, c: Id)
    requires c in s.clients && k in s.db && s.db[k].List? && s.db[k].xs != []
    ensures var cl, r := s.clients[c], ServedList(s, k, c);
            var (x, rest) := Popped1(s.db[k].xs, cl.front);
            var db0 := s.db[k := List(rest)];
            && (cl.target.None? ==> r.db == db0 && r.log == s.log + [(c, Popped(k, x))])
            && (cl.target.Some? ==>
                  var dst := cl.target.value;
                  if dst in db0 && !db0[dst].List? then
                    r.db == db0[k := List(Pushed1(rest, x, cl.front))] && r.log == s.log + [(c, WrongType)]
                  else
                    && r.db == db0[dst := List([x] + if dst in db0 then db0[dst].xs else [])]
                    && r.log == s.log + [(c, Moved(x))])
  {
    hide Unblocked, Popped1, Pushed1;
    var (x, rest) := Popped1(s.db[k].xs, s.clients[c].front);
    UnblockKeepsDb(s.(db := s.db[k := List(rest)]), c);
  }

  /** Popped and delivered, popped and pushed elsewhere, or popped and put back. */
  lemma ServedListConserves(s: State, k: Key, c: Id, ks: seq<Key>)
    requires c in s.clients && k in s.db && s.db[k].List? && s.db[k].xs != []
    requires NoDup(ks) && k in ks && Covers(s, ks)
    ensures Conserves(s, ServedList(s, k, c), ks)
  {
    hide ServedList, Stored, Delivered, NoDup, Popped1, Pushed1, Contents;
    ServedListDb(s, k, c);
    var cl, r := s.clients[c], ServedList(s, k, c);
    var (x, rest) := Popped1(s.db[k].xs, cl.front);
    var db0 := s.db[k := List(rest)];
    PopElems(s.db[k].xs, cl.front);
    ListContents(s.db[k].xs, rest, x);
    StoreLess(s.db, k, List(rest), ks, x);
    DeliveredNext(s.log, c, Popped(k, x));
    DeliveredNext(s.log, c, Moved(x));
    DeliveredNext(s.log, c, WrongType);
    if cl.target.None? {
      assert Stored(db0, ks) + (Delivered(s.log) + multiset{x}) == Stored(db0, ks) + multiset{x} + Delivered(s.log);
    } else {
      var dst := cl.target.value;
      if dst in db0 && !db0[dst].List? {
        PushedContents(rest, x, cl.front);
        StoreMore(db0, k, List(Pushed1(rest, x, cl.front)), ks, x);
      } else {
        var xs := if dst in db0 then db0[dst].xs else [];
        PushedContents(xs, x, true);
        NoContents();
        StoreMore(db0, dst, List([x] + xs), ks, x);
      }
    }
  }

  lemma {:induction false} ServeListConserves(s: State, k: Key, n: nat, ks: seq<Key>)
    requires NoDup(ks) && k in ks && Covers(s, ks)
    ensures Conserves(s, ServeList(s, k, n), ks) && Covers(ServeList(s, k, n), ks)
    decreases n
  {
    hide ServedList, Stored, Delivered, NoDup;
    if n == 0 || !HasHead(s, k) || k !in s.db || !s.db[k].List? {
    } else {
      var c := s.waiting[k][0];
      if !s.clients[c].btype.OnList? {
        ServeListConserves(Rotated(s, k), k, n - 1, ks);
      } else if s.db[k].xs != [] {
        ServedListConserves(s, k, c, ks);
        ServedListClients(s, k, c);
        ServeListConserves(ServedList(s, k, c), k, n - 1, ks);
      }
    }
  }

  lemma ServedZSetConserves(s: State, k: Key, c: Id, ks: seq<Key>)
    requires c in s.clients && k in s.db && s.db[k].ZSet? && s.db[k].zs != []
    requires NoDup(ks) && k in ks
    ensures Conserves(s, ServedZSet(s, k, c), ks)
  {
    hide Stored, Delivered, NoDup, Unblocked, Popped1, Contents;
    UnblockKeepsDb(s, c);
    var (x, rest) := Popped1(s.db[k].zs, s.clients[c].front);
    PopElems(s.db[k].zs, s.clients[c].front);
    DeliveredNext(s.log, c, Popped(k, x));
    var r := ServedZSet(s, k, c);
    ZSetContents(s.db[k].zs, rest, x);
    TakenOut(s.db, r.db, ks, k, x);
    assert Stored(r.db, ks) + (Delivered(s.log) + multiset{x}) == Stored(r.db, ks) + multiset{x} + Delivered(s.log);
  }

  lemma {:induction false} ServeZSetConserves(s: State, k: Key, n: nat, ks: seq<Key>)
    requires NoDup(ks) && k in ks && Covers(s, ks)
    ensures Conserves(s, ServeZSet(s, k, n), ks) && Covers(ServeZSet(s, k, n), ks)
    decreases n
  {
    hide Stored, Delivered, NoDup;
    if n == 0 || !HasHead(s, k) || k !in s.db || !s.db[k].ZSet? || s.db[k].zs == [] {
    } else {
      var c := s.waiting[k][0];
      if !s.clients[c].btype.OnZSet? {
        ServeZSetConserves(Rotated(s, k), k, n - 1, ks);
      } else {
        ServedZSetConserves(s, k, c, ks);
        ServeZSetConserves(ServedZSet(s, k, c), k, n - 1, ks);
      }
    }
  }

  lemma HandleKeyConserves(s: State, k: Key, ks: seq<Key>)
    requires NoDup(ks) && k in ks && Covers(s, ks)
    ensures Conserves(s, HandleKey(s, k), ks) && Covers(HandleKey(s, k), ks)
  {
    hide Stored, Delivered, NoDup, ServeList, ServeZSet;
    var s0 := s.(readySet := s.readySet - {k});
    var n := QueueLength(s, k);
    if k in s.db && s.db[k].List? {
      ServeListConserves(s0, k, n, ks);
      var s1 := ServeList(s0, k, n);
      if k in s1.db && s1.db[k] == List([]) {
        StoredChange(s1.db, s1.db - {k}, ks, k);
        Cancel(Stored(s1.db - {k}, ks), Stored(s1.db, ks), multiset{});
      }
    } else if k in s.db && s.db[k].ZSet? {
      ServeZSetConserves(s0, k, n, ks);
    }
  }

  ghost predicate AllIn(a: seq<Key>, ks: seq<Key>) { forall k | k in a :: k in ks }

  /** Whatever is served and in whatever order, the elements stored and the elements delivered
      together stay the same, over any listing of the keys that includes the ready keys and the
      BRPOPLPUSH targets. */
  lemma {:induction false} HandleConserves(s: State, l: seq<Key>, ks: seq<Key>)
    requires Inv(s, l) && NoDup(ks) && Covers(s, ks) && AllIn(l, ks) && forall k | k in s.waiting :: k in ks
    requires AllIn(s.ready, ks)
    ensures Conserves(s, Handle(s, l), ks)
    decreases |Waiters(s)|, |l| + |s.ready|, |s.ready|
  {
    hide Index, Counters, ReprocessOk, ReadyOk, HandleKey, Stored, Delivered, NoDup, Covers;
    if l != [] {
      HandleKeyMeasure(s, l[0]);
      HandleKeyKeepsInv(s, l);
      HandleKeyConserves(s, l[0], ks);
      HandleKeySignals(s, l[0]);
      HandleConserves(HandleKey(s, l[0]), l[1..], ks);
    } else if s.ready != [] {
      SwapKeepsInv(s);
      CoversSame(s, s.(ready := []), ks);
      HandleConserves(s.(ready := []), s.ready, ks);
    }
  }

  lemma CoversSame(s: State, r: State, ks: seq<Key>)
    requires Covers(s, ks) && r.clients == s.clients
    ensures Covers(r, ks)
  {
  }

  /** Queues only go away, and only keys with a queue are signalled. */
  ghost predicate Narrows(s: State, r: State) {
    && (forall k | k in r.waiting :: k in s.waiting)
    && (forall k | k in r.ready :: k in s.ready || k in s.waiting)
  }

  lemma ServedListNarrows(s: State, k: Key, c: Id)
    requires c in s.clients && k in s.db && s.db[k].List? && s.db[k].xs != []
    ensures Narrows(s, ServedList(s, k, c))
  {
  }

  lemma {:induction false} ServeListNarrows(s: State, k: Key, n: nat)
    ensures Narrows(s, ServeList(s, k, n))
    decreases n
  {
    hide ServedList;
    if n == 0 || !HasHead(s, k) || k !in s.db || !s.db[k].List? {
    } else {
      var c := s.waiting[k][0];
      if !s.clients[c].btype.OnList? {
        ServeListNarrows(Rotated(s, k), k, n - 1);
      } else if s.db[k].xs != [] {
        ServedListNarrows(s, k, c);
        ServeListNarrows(ServedList(s, k, c), k, n - 1);
      }
    }
  }

  lemma {:induction false} ServeZSetNarrows(s: State, k: Key, n: nat)
    ensures Narrows(s, ServeZSet(s, k, n))
    decreases n
  {
    if n == 0 || !HasHead(s, k) || k !in s.db || !s.db[k].ZSet? || s.db[k].zs == [] {
    } else {
      var c := s.waiting[k][0];
      if !s.clients[c].btype.OnZSet? {
        ServeZSetNarrows(Rotated(s, k), k, n - 1);
      } else {
        ServeZSetNarrows(ServedZSet(s, k, c), k, n - 1);
      }
    }
  }

  lemma HandleKeySignals(s: State, k: Key)
    ensures Narrows(s, HandleKey(s, k))
  {
    hide ServeList, ServeZSet;
    var s0 := s.(readySet := s.readySet - {k});
    ServeListNarrows(s0, k, QueueLength(s, k));
    ServeZSetNarrows(s0, k, QueueLength(s, k));
  }
}
