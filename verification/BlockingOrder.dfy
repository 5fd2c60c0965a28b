/** First in, first out: what serving a key does to the order of its queue, and when the clients of a
    key are served in the order in which they blocked. */
module BlockingOrder {
  import opened Common
  import opened Blocking
  import opened BlockingIndex
  import opened BlockingServe
  import opened BlockingRuns

  // ---------- the queue after one serving ----------

  /** The clients of a queue that are not blocked for type t, in order. */
  function Others(s: State, q: seq<Id>, t: Btype): seq<Id> {
    if q == [] then []
    else (if q[0] in s.clients && s.clients[q[0]].btype == t then [] else [q[0]]) + Others(s, q[1..], t)
  }

  /** How many clients the loop looks at before it ends or finds the list empty. */
  function ListVisits(s: State, k: Key, n: nat): nat
    decreases n
  {
    if n == 0 || !HasHead(s, k) || k !in s.db || !s.db[k].List? then 0
    else
      var c := s.waiting[k][0];
      if !s.clients[c].btype.OnList? then 1 + ListVisits(Rotated(s, k), k, n - 1)
      else if s.db[k].xs == [] then 0
      else 1 + ListVisits(ServedList(s, k, c), k, n - 1)
  }

  function ZSetVisits(s: State, k: Key, n: nat): nat
    decreases n
  {
    if n == 0 || !HasHead(s, k) || k !in s.db || !s.db[k].ZSet? || s.db[k].zs == [] then 0
    else
      var c := s.waiting[k][0];
      if !s.clients[c].btype.OnZSet? then 1 + ZSetVisits(Rotated(s, k), k, n - 1)
      else 1 + ZSetVisits(ServedZSet(s, k, c), k, n - 1)
  }

  /** The first m of queue q were looked at: those of type t are gone, the others stand behind the rest. */
  ghost predicate Turned(s: State, r: State, k: Key, t: Btype, m: nat) {
    && m <= |Queue(s, k)|
    && Queue(r, k) == Queue(s, k)[m..] + Others(s, Queue(s, k)[..m], t)
    && forall c | c in Queue(r, k) ::
       c in Queue(s, k) && c in s.clients && c in r.clients && r.clients[c] == s.clients[c]
  }

  lemma {:induction false} OthersSame(s: State, r: State, q: seq<Id>, t: Btype)
    requires forall c | c in q :: c in s.clients && c in r.clients && s.clients[c] == r.clients[c]
    ensures Others(s, q, t) == Others(r, q, t)
  {
    if q != [] { OthersSame(s, r, q[1..], t); }
  }

  lemma QueueClients(s: State, k: Key)
    requires Index(s)
    ensures forall c | c in Queue(s, k) :: c in s.clients && k in s.clients[c].keys
  {
    if k in s.waiting { assert QueueOk(s, k); }
  }

  lemma TurnedRotate(s: State, r: State, k: Key, t: Btype, m: nat)
    requires Index(s) && HasHead(s, k) && s.clients[s.waiting[k][0]].btype != t
    requires m < |Queue(s, k)| && Turned(Rotated(s, k), r, k, t, m)
    ensures Turned(s, r, k, t, m + 1)
  {
    hide Index, Others;
    QueueClients(s, k);
    var q, s1 := Queue(s, k), Rotated(s, k);
    assert Queue(s1, k)[m..] == q[m + 1..] + [q[0]];
    assert Queue(s1, k)[..m] == q[1..m + 1];
    OthersSame(s, s1, q[1..m + 1], t);
    OthersHead(s, q[..m + 1], t);
    assert q[..m + 1][1..] == q[1..m + 1];
  }

  lemma OthersHead(s: State, q: seq<Id>, t: Btype)
    requires q != []
    ensures Others(s, q, t)
            == (if q[0] in s.clients && s.clients[q[0]].btype == t then [] else [q[0]]) + Others(s, q[1..], t)
  {
  }

  lemma TurnedServe(s: State, s1: State, r: State, k: Key, t: Btype, m: nat)
    requires Index(s) && k in s.waiting && HasHead(s, k)
    requires var c := s.waiting[k][0];
             c !in s.waiting[k][1..] && s.clients[c].btype == t
             && s1.clients == s.clients[c := IDLE.(queued := true)] && Queue(s1, k) == s.waiting[k][1..]
    requires Turned(s1, r, k, t, m)
    ensures Turned(s, r, k, t, m + 1)
  {
    hide Index, Others;
    QueueClients(s, k);
    var q := Queue(s, k);
    assert q[1..][m..] == q[m + 1..];
    assert q[1..][..m] == q[1..m + 1] == q[..m + 1][1..];
    assert forall c | c in q[1..m + 1] :: c in q[1..];
    OthersSame(s, s1, q[1..m + 1], t);
    OthersHead(s, q[..m + 1], t);
    assert forall c | c in q[1..] :: c in q && c != q[0];
  }

  lemma TurnedNot(s: State, k: Key, t: Btype)
    requires Index(s)
    ensures Turned(s, s, k, t, 0)
  {
    hide Index;
    QueueClients(s, k);
    var q := Queue(s, k);
    assert q[0..] + Others(s, q[..0], t) == q;
  }

  /** Serving a list: where the loop stopped early, the list was empty and a list client was next. */
  lemma {:induction false} ListQueueAfter(s: State, k: Key, n: nat)
    requires Index(s) && n <= |Queue(s, k)| && k in s.db && s.db[k].List?
    ensures var m, r := ListVisits(s, k, n), ServeList(s, k, n);
            && m <= n && Turned(s, r, k, OnList, m)
            && (m < n ==> Queue(s, k)[m] in s.clients && s.clients[Queue(s, k)[m]].btype.OnList?)
    decreases n
  {
    hide ServedList, Index, Rotated, Turned;
    var q := Queue(s, k);
    TurnedNot(s, k, OnList);
    if n > 0 {
      HeadWaits(s, k);
      var c := q[0];
      if !s.clients[c].btype.OnList? {
        var s1 := Rotated(s, k);
        RotateKeepsIndex(s, k);
        RotatedOnly(s, k);
        RotatedTail(s, k);
        ListQueueAfter(s1, k, n - 1);
        TurnedRotate(s, ServeList(s1, k, n - 1), k, OnList, ListVisits(s1, k, n - 1));
      } else if s.db[k].xs != [] {
        var s1 := ServedList(s, k, c);
        ServedListQueue(s, k);
        ServedListKeepsIndex(s, k, c);
        ListQueueAfter(s1, k, n - 1);
        TurnedServe(s, s1, ServeList(s1, k, n - 1), k, OnList, ListVisits(s1, k, n - 1));
      }
    }
  }

  lemma RotatedTail(s: State, k: Key)
    requires HasHead(s, k)
    ensures var q, q' := s.waiting[k], Queue(Rotated(s, k), k);
            |q'| == |q| && forall i | 0 < i < |q| :: q'[i - 1] == q[i]
  {
  }

  lemma {:induction false} ZSetQueueAfter(s: State, k: Key, n: nat)
    requires Index(s) && n <= |Queue(s, k)| && (k in s.db ==> s.db[k].ZSet? && s.db[k].zs != [])
    ensures var m, r := ZSetVisits(s, k, n), ServeZSet(s, k, n);
            && m <= n && Turned(s, r, k, OnZSet, m)
            && (m < n ==> k !in r.db)
    decreases n
  {
    hide ServedZSet, Index, Rotated, Turned;
    var q := Queue(s, k);
    TurnedNot(s, k, OnZSet);
    if n > 0 && k in s.db {
      HeadWaits(s, k);
      var c := q[0];
      if !s.clients[c].btype.OnZSet? {
        var s1 := Rotated(s, k);
        RotateKeepsIndex(s, k);
        RotatedOnly(s, k);
        RotatedTail(s, k);
        ZSetQueueAfter(s1, k, n - 1);
        TurnedRotate(s, ServeZSet(s1, k, n - 1), k, OnZSet, ZSetVisits(s1, k, n - 1));
      } else {
        var s1 := ServedZSet(s, k, c);
        ServedZSetQueue(s, k);
        ZSetQueueAfter(s1, k, n - 1);
        TurnedServe(s, s1, ServeZSet(s1, k, n - 1), k, OnZSet, ZSetVisits(s1, k, n - 1));
      }
    }
  }

  // ---------- who keeps their place ----------

  lemma {:induction false} WaitingOthers(s: State, q: seq<Id>, t: Btype, other: Btype)
    requires t != other
    ensures Waiting(s, Others(s, q, other), t) == Waiting(s, q, t)
  {
    hide Waiting, Others;
    if q == [] {
      OthersOfNone(s, other);
    } else {
      var rest := Others(s, q[1..], other);
      WaitingOthers(s, q[1..], t, other);
      OthersHead(s, q, other);
      assert q == [q[0]] + q[1..];
      WaitingAppend(s, [q[0]], q[1..], t);
      WaitingOne(s, q[0], t);
      if q[0] in s.clients && s.clients[q[0]].btype == other {
        assert [] + rest == rest;
        assert [] + Waiting(s, q[1..], t) == Waiting(s, q[1..], t);
      } else {
        WaitingAppend(s, [q[0]], rest, t);
      }
    }
  }

  lemma OthersOfNone(s: State, t: Btype)
    ensures Others(s, [], t) == []
  {
  }

  lemma {:induction false} WaitingIn(s: State, q: seq<Id>, t: Btype)
    ensures forall c | c in Waiting(s, q, t) :: c in q
  {
    if q != [] { WaitingIn(s, q[1..], t); }
  }

  lemma Swapped(a: seq<Id>, b: seq<Id>)
    requires forall c | c in a :: c !in b
    ensures a + b == b + a <==> a == [] || b == []
  {
    if a != [] && b != [] {
      assert (a + b)[0] == a[0] && (b + a)[0] == b[0] && a[0] in a && b[0] in b;
    } else if a == [] {
      assert a + b == b == b + a;
    } else {
      assert a + b == a == b + a;
    }
  }

  /** The clients of another type than the one served keep their order exactly if they all stand on one
      side of the place where the loop stopped. */
  lemma OrderKeptExactly(s: State, r: State, k: Key, t: Btype, other: Btype, m: nat)
    requires Index(s) && t != other && Turned(s, r, k, other, m)
    ensures var q := Queue(s, k);
            && Waiting(r, Queue(r, k), t) == Waiting(s, q[m..], t) + Waiting(s, q[..m], t)
            && (Waiting(r, Queue(r, k), t) == Waiting(s, q, t) <==>
                  Waiting(s, q[..m], t) == [] || Waiting(s, q[m..], t) == [])
  {
    hide Waiting, Others;
    var q := Queue(s, k);
    WaitingSame(s, r, Queue(r, k), t);
    WaitingAppend(s, q[m..], Others(s, q[..m], other), t);
    WaitingOthers(s, q[..m], t, other);
    assert q == q[..m] + q[m..];
    WaitingAppend(s, q[..m], q[m..], t);
    WaitingIn(s, q[..m], t);
    WaitingIn(s, q[m..], t);
    Halves(s, k, m);
    Swapped(Waiting(s, q[..m], t), Waiting(s, q[m..], t));
  }

  lemma Halves(s: State, k: Key, m: nat)
    requires Index(s) && m <= |Queue(s, k)|
    ensures forall c | c in Queue(s, k)[..m] :: c !in Queue(s, k)[m..]
  {
    if k in s.waiting { assert QueueOk(s, k); }
  }

  lemma TurnedLength(s: State, r: State, k: Key, t: Btype, m: nat)
    requires Turned(s, r, k, t, m)
    ensures m <= |Queue(s, k)|
  {
  }

  // ---------- where the loop stops, read off the state before it ----------

  predicate Waits(s: State, c: Id, t: Btype) { c in s.clients && s.clients[c].btype == t }

  /** How far into the queue a sorted set with the given number of elements lasts. */
  function ZSetStop(s: State, q: seq<Id>, left: nat): (m: nat)
    ensures m <= |q|
  {
    if q == [] || left == 0 then 0
    else 1 + ZSetStop(s, q[1..], if Waits(s, q[0], OnZSet) then left - 1 else left)
  }

  /** Serving the client takes an element away from the list k: it is not put back because the target has
      the wrong type, nor pushed to k itself. */
  predicate Takes(s: State, k: Key, c: Id) {
    c in s.clients ==>
      var target := s.clients[c].target;
      target.None? || (target.value != k && (target.value in s.db ==> s.db[target.value].List?))
  }

  /** How far into the queue a list with the given number of elements lasts: up to the first list client
      that finds it empty. */
  function ListStop(s: State, k: Key, q: seq<Id>, left: nat): (m: nat)
    ensures m <= |q|
  {
    if q == [] then 0
    else if !Waits(s, q[0], OnList) then 1 + ListStop(s, k, q[1..], left)
    else if left == 0 then 0
    else 1 + ListStop(s, k, q[1..], if Takes(s, k, q[0]) then left - 1 else left)
  }

  lemma {:induction false} ZSetStopSame(s: State, r: State, q: seq<Id>, left: nat)
    requires forall c | c in q :: c in s.clients && c in r.clients && s.clients[c] == r.clients[c]
    ensures ZSetStop(s, q, left) == ZSetStop(r, q, left)
  {
    if q != [] && left != 0 { ZSetStopSame(s, r, q[1..], if Waits(s, q[0], OnZSet) then left - 1 else left); }
  }

  lemma {:induction false} ListStopSame(s: State, r: State, k: Key, q: seq<Id>, left: nat)
    requires forall c | c in q :: c in s.clients && c in r.clients && s.clients[c] == r.clients[c]
    requires forall c | c in q :: Takes(s, k, c) == Takes(r, k, c)
    ensures ListStop(s, k, q, left) == ListStop(r, k, q, left)
  {
    hide Takes;
    if q != [] {
      if !Waits(s, q[0], OnList) {
        ListStopSame(s, r, k, q[1..], left);
      } else if left != 0 {
        ListStopSame(s, r, k, q[1..], if Takes(s, k, q[0]) then left - 1 else left);
      }
    }
  }

  lemma {:induction false} ZSetVisitsAre(s: State, k: Key, n: nat)
    requires Index(s) && n <= |Queue(s, k)| && (k in s.db ==> s.db[k].ZSet? && s.db[k].zs != [])
    ensures ZSetVisits(s, k, n) == ZSetStop(s, Queue(s, k)[..n], if k in s.db then |s.db[k].zs| else 0)
    decreases n
  {
    hide ServedZSet, Index, Rotated;
    var q := Queue(s, k);
    if n > 0 && k in s.db {
      HeadWaits(s, k);
      QueueClients(s, k);
      var c, rest := q[0], q[1..n];
      assert q[..n][0] == c && q[..n][1..] == rest;
      assert forall d | d in rest :: d in q[1..] && d in q;
      if !s.clients[c].btype.OnZSet? {
        var s1 := Rotated(s, k);
        RotateKeepsIndex(s, k);
        RotatedOnly(s, k);
        RotatedTail(s, k);
        assert Queue(s1, k)[..n - 1] == rest;
        ZSetVisitsAre(s1, k, n - 1);
        ZSetStopSame(s, s1, rest, |s.db[k].zs|);
      } else {
        var s1 := ServedZSet(s, k, c);
        ServedZSetQueue(s, k);
        OneLess(s, k, c);
        assert Queue(s1, k)[..n - 1] == rest;
        ZSetVisitsAre(s1, k, n - 1);
        ZSetStopSame(s, s1, rest, |s.db[k].zs| - 1);
      }
    }
  }

  lemma OneLess(s: State, k: Key, c: Id)
    requires c in s.clients && k in s.db && s.db[k].ZSet? && s.db[k].zs != []
    ensures var r := ServedZSet(s, k, c);
            if |s.db[k].zs| == 1 then k !in r.db else k in r.db && r.db[k].ZSet? && |r.db[k].zs| == |s.db[k].zs| - 1
  {
    hide Unblocked;
    UnblockKeepsDb(s, c);
  }

  /** What serving a list client does to the list, and that it does not change who takes an element. */
  lemma ServedListLeft(s: State, k: Key, c: Id)
    requires c in s.clients && k in s.db && s.db[k].List? && s.db[k].xs != []
    ensures var r := ServedList(s, k, c);
            && k in r.db && r.db[k].List?
            && |r.db[k].xs| == |s.db[k].xs| - (if Takes(s, k, c) then 1 else 0)
            && forall d | d in s.clients && d in r.clients && r.clients[d] == s.clients[d] ::
               Takes(r, k, d) == Takes(s, k, d)
  {
    hide ServedList, Popped1, Pushed1;
    PopLength(s.db[k].xs, s.clients[c].front);
    ServedListDb(s, k, c);
  }

  lemma PopLength(xs: seq<Elem>, front: bool)
    requires xs != []
    ensures |Popped1(xs, front).1| == |xs| - 1
    ensures forall x :: |Pushed1(Popped1(xs, front).1, x, front)| == |xs|
  {
  }

  lemma {:induction false} ListVisitsAre(s: State, k: Key, n: nat)
    requires Index(s) && n <= |Queue(s, k)| && k in s.db && s.db[k].List?
    ensures ListVisits(s, k, n) == ListStop(s, k, Queue(s, k)[..n], |s.db[k].xs|)
    decreases n
  {
    hide ServedList, Index, Rotated, Takes;
    var q := Queue(s, k);
    if n > 0 {
      HeadWaits(s, k);
      QueueClients(s, k);
      var c, rest := q[0], q[1..n];
      assert q[..n][0] == c && q[..n][1..] == rest;
      assert forall d | d in rest :: d in q[1..] && d in q;
      if !s.clients[c].btype.OnList? {
        var s1 := Rotated(s, k);
        RotateKeepsIndex(s, k);
        RotatedOnly(s, k);
        RotatedTail(s, k);
        assert Queue(s1, k)[..n - 1] == rest;
        ListVisitsAre(s1, k, n - 1);
        SameTakers(s, s1, k);
        ListStopSame(s, s1, k, rest, |s.db[k].xs|);
      } else if s.db[k].xs != [] {
        var s1 := ServedList(s, k, c);
        ServedListQueue(s, k);
        ServedListKeepsIndex(s, k, c);
        ServedListLeft(s, k, c);
        assert Queue(s1, k)[..n - 1] == rest;
        ListVisitsAre(s1, k, n - 1);
        ListStopSame(s, s1, k, rest, |s1.db[k].xs|);
      }
    }
  }

  lemma SameTakers(s: State, r: State, k: Key)
    requires r.clients == s.clients && r.db == s.db
    ensures forall c :: Takes(r, k, c) == Takes(s, k, c)
  {
  }

  /** Serving a list key keeps the order of the clients of another type exactly if they all stand on one
      side of the first list client that finds the list empty. */
  lemma ListServingKeepsOrder(s: State, k: Key, t: Btype)
    requires Index(s) && k in s.db && s.db[k].List? && t != OnList
    ensures var q := Queue(s, k);
            var m, r := ListStop(s, k, q, |s.db[k].xs|), ServeList(s, k, |q|);
            Waiting(r, Queue(r, k), t) == Waiting(s, q, t)
            <==> Waiting(s, q[..m], t) == [] || Waiting(s, q[m..], t) == []
  {
    hide Turned, Waiting, ServeList, ListVisits, ListStop, Index;
    var q := Queue(s, k);
    ListQueueAfter(s, k, |q|);
    ListVisitsAre(s, k, |q|);
    assert q[..|q|] == q;
    TurnedLength(s, ServeList(s, k, |q|), k, OnList, ListVisits(s, k, |q|));
    OrderKeptExactly(s, ServeList(s, k, |q|), k, t, OnList, ListVisits(s, k, |q|));
  }

  /** Serving a sorted set: the same with the place at which the sorted set is used up. */
  lemma ZSetServingKeepsOrder(s: State, k: Key, t: Btype)
    requires Index(s) && k in s.db && s.db[k].ZSet? && s.db[k].zs != [] && t != OnZSet
    ensures var q := Queue(s, k);
            var m, r := ZSetStop(s, q, |s.db[k].zs|), ServeZSet(s, k, |q|);
            Waiting(r, Queue(r, k), t) == Waiting(s, q, t)
            <==> Waiting(s, q[..m], t) == [] || Waiting(s, q[m..], t) == []
  {
    hide Turned, Waiting, ServeZSet, ZSetVisits, ZSetStop, Index;
    var q := Queue(s, k);
    ZSetQueueAfter(s, k, |q|);
    ZSetVisitsAre(s, k, |q|);
    assert q[..|q|] == q;
    TurnedLength(s, ServeZSet(s, k, |q|), k, OnZSet, ZSetVisits(s, k, |q|));
    OrderKeptExactly(s, ServeZSet(s, k, |q|), k, t, OnZSet, ZSetVisits(s, k, |q|));
  }

  // ---------- order over runs ----------

  ghost predicate InOrder(q: seq<Id>, since: Id -> nat) {
    forall i, j | 0 <= i < j < |q| :: since(q[i]) < since(q[j])
  }

  /** The queue of k holds clients of type t only, in the given order. */
  ghost predicate Fifo(s: State, k: Key, t: Btype, since: Id -> nat) {
    && InOrder(Queue(s, k), since)
    && forall c | c in Queue(s, k) :: c in s.clients && s.clients[c].btype == t
  }

  lemma HeadInOrder(q: seq<Id>, since: Id -> nat)
    requires q != []
    ensures InOrder(q, since) <==> InOrder(q[1..], since) && forall d | d in q[1..] :: since(q[0]) < since(d)
  {
    var rest := q[1..];
    assert forall i | 0 <= i < |rest| :: rest[i] == q[i + 1] && rest[i] in rest;
    if InOrder(rest, since) && forall d | d in rest :: since(q[0]) < since(d) {
      forall i, j | 0 <= i < j < |q| ensures since(q[i]) < since(q[j]) {
        assert q[j] == rest[j - 1];
        if i > 0 { assert q[i] == rest[i - 1]; }
      }
    }
  }

  lemma {:induction false} WithoutKeepsOrder(q: seq<Id>, c: Id, since: Id -> nat)
    requires InOrder(q, since)
    ensures InOrder(Without(q, c), since)
    ensures forall d | d in Without(q, c) :: d in q
  {
    hide InOrder;
    if q != [] {
      HeadInOrder(q, since);
      if q[0] != c {
        var rest := Without(q[1..], c);
        WithoutKeepsOrder(q[1..], c, since);
        HeadInOrder([q[0]] + rest, since);
        assert ([q[0]] + rest)[1..] == rest;
      }
    }
  }

  lemma UnblockKeepsFifo(s: State, c: Id, k: Key, t: Btype, since: Id -> nat)
    requires Index(s) && c in s.clients && s.clients[c].blocked && Fifo(s, k, t, since)
    ensures Fifo(Unblocked(s, c), k, t, since)
  {
    hide InOrder;
    var r := Unblocked(s, c);
    if k in s.waiting {
      WithoutKeepsOrder(s.waiting[k], c, since);
      NothingInOrder(since);
      assert Queue(r, k) == if OnData(s.clients[c].btype) && k in s.clients[c].keys then Without(s.waiting[k], c)
                            else s.waiting[k];
    }
    UnblockKeepsIndex(s, c);
    QueueClients(r, k);
    assert r.clients[c].keys == {};
  }

  lemma NothingInOrder(since: Id -> nat)
    ensures InOrder([], since)
  {
  }

  lemma ServedListKeepsFifo(s: State, k: Key, c: Id, j: Key, t: Btype, since: Id -> nat)
    requires Index(s) && c in s.clients && s.clients[c].blocked && Fifo(s, j, t, since)
    requires k in s.db && s.db[k].List? && s.db[k].xs != []
    ensures Fifo(ServedList(s, k, c), j, t, since)
  {
    hide Index, Unblocked, ServedList, InOrder;
    UnblockKeepsFifo(s, c, j, t, since);
    ServedListWaiting(s, k, c);
    ServedListClients(s, k, c);
    UnblockedClients(s, c);
  }

  lemma UnblockedClients(s: State, c: Id)
    requires c in s.clients
    ensures Unblocked(s, c).clients == s.clients[c := IDLE.(queued := true)]
  {
  }

  lemma ServedZSetKeepsFifo(s: State, k: Key, c: Id, j: Key, t: Btype, since: Id -> nat)
    requires Index(s) && c in s.clients && s.clients[c].blocked && Fifo(s, j, t, since)
    requires k in s.db && s.db[k].ZSet? && s.db[k].zs != []
    ensures Fifo(ServedZSet(s, k, c), j, t, since)
  {
    hide Index, Unblocked, InOrder, Popped1;
    UnblockKeepsFifo(s, c, j, t, since);
  }

  /** Serving never reorders the queue of another key, nor that of a key whose clients are of its kind. */
  lemma {:induction false} ServeListKeepsFifo(s: State, k: Key, n: nat, j: Key, t: Btype, since: Id -> nat)
    requires Index(s) && Fifo(s, j, t, since) && (j == k ==> t == OnList)
    ensures Fifo(ServeList(s, k, n), j, t, since)
    decreases n
  {
    hide Index, ServedList, InOrder;
    if n == 0 || !HasHead(s, k) || k !in s.db || !s.db[k].List? {
    } else {
      var c := s.waiting[k][0];
      HeadWaits(s, k);
      if !s.clients[c].btype.OnList? {
        RotateKeepsIndex(s, k);
        ServeListKeepsFifo(Rotated(s, k), k, n - 1, j, t, since);
      } else if s.db[k].xs != [] {
        ServedListKeepsIndex(s, k, c);
        ServedListKeepsFifo(s, k, c, j, t, since);
        ServeListKeepsFifo(ServedList(s, k, c), k, n - 1, j, t, since);
      }
    }
  }

  lemma {:induction false} ServeZSetKeepsFifo(s: State, k: Key, n: nat, j: Key, t: Btype, since: Id -> nat)
    requires Index(s) && Fifo(s, j, t, since) && (j == k ==> t == OnZSet)
    ensures Fifo(ServeZSet(s, k, n), j, t, since)
    decreases n
  {
    hide Index, ServedZSet, InOrder;
    if n == 0 || !HasHead(s, k) || k !in s.db || !s.db[k].ZSet? || s.db[k].zs == [] {
    } else {
      var c := s.waiting[k][0];
      HeadWaits(s, k);
      if !s.clients[c].btype.OnZSet? {
        RotateKeepsIndex(s, k);
        ServeZSetKeepsFifo(Rotated(s, k), k, n - 1, j, t, since);
      } else {
        ServedZSetQueue(s, k);
        ServedZSetKeepsFifo(s, k, c, j, t, since);
        ServeZSetKeepsFifo(ServedZSet(s, k, c), k, n - 1, j, t, since);
      }
    }
  }

  lemma {:induction false} AllOthers(s: State, q: seq<Id>, t: Btype)
    requires forall c | c in q :: !(c in s.clients && s.clients[c].btype == t)
    ensures Others(s, q, t) == q
  {
    if q != [] { AllOthers(s, q[1..], t); }
  }

  /** When everybody waits for something else, the whole queue turns once around. */
  lemma FullTurn(s: State, r: State, k: Key, t: Btype, other: Btype, since: Id -> nat)
    requires Fifo(s, k, t, since) && t != other && Turned(s, r, k, other, |Queue(s, k)|)
    ensures Fifo(r, k, t, since)
  {
    hide InOrder;
    var q := Queue(s, k);
    assert q[..|q|] == q && q[|q|..] == [];
    AllOthers(s, q, other);
    assert [] + q == q;
  }

  lemma HandleKeyKeepsFifo(s: State, k: Key, j: Key, t: Btype, since: Id -> nat)
    requires Index(s) && NoEmpty(s, {}) && Fifo(s, j, t, since)
    ensures Fifo(HandleKey(s, k), j, t, since)
  {
    hide Index, ServeList, ServeZSet, InOrder, Turned;
    var s0 := s.(readySet := s.readySet - {k});
    SameIndex(s, s0);
    var n := QueueLength(s, k);
    if k in s.db && s.db[k].List? {
      if j == k && t != OnList {
        ListQueueAfter(s0, k, n);
        FullTurn(s0, ServeList(s0, k, n), k, t, OnList, since);
      } else {
        ServeListKeepsFifo(s0, k, n, j, t, since);
      }
    } else if k in s.db && s.db[k].ZSet? {
      if j == k && t != OnZSet {
        ZSetQueueAfter(s0, k, n);
        ZSetTurns(s0, k, n, t);
        FullTurn(s0, ServeZSet(s0, k, n), k, t, OnZSet, since);
      } else {
        ServeZSetKeepsFifo(s0, k, n, j, t, since);
      }
    }
  }

  /** With nobody waiting for a sorted set, none is taken. */
  lemma {:induction false} ZSetTurns(s: State, k: Key, n: nat, t: Btype)
    requires Index(s) && n <= |Queue(s, k)| && k in s.db && s.db[k].ZSet? && s.db[k].zs != [] && t != OnZSet
    requires forall c | c in Queue(s, k) :: c in s.clients && s.clients[c].btype == t
    ensures ZSetVisits(s, k, n) == n
    decreases n
  {
    hide Index;
    if n > 0 {
      HeadWaits(s, k);
      RotateKeepsIndex(s, k);
      RotatedQueue(s, k);
      ZSetTurns(Rotated(s, k), k, n - 1, t);
    }
  }

  lemma {:induction false} HandleKeepsFifo(s: State, l: seq<Key>, j: Key, t: Btype, since: Id -> nat)
    requires Inv(s, l) && NoEmpty(s, {}) && Fifo(s, j, t, since)
    ensures Fifo(Handle(s, l), j, t, since)
    decreases |Waiters(s)|, |l| + |s.ready|, |s.ready|
  {
    hide Index, Counters, ReprocessOk, ReadyOk, HandleKey, NoEmpty, InOrder;
    if l != [] {
      HandleKeyMeasure(s, l[0]);
      HandleKeyKeepsInv(s, l);
      HandleKeyKeepsNoEmpty(s, l[0]);
      HandleKeyKeepsFifo(s, l[0], j, t, since);
      HandleKeepsFifo(HandleKey(s, l[0]), l[1..], j, t, since);
    } else if s.ready != [] {
      SwapKeepsInv(s);
      SameDb(s, s.(ready := []));
      SameCounts(s, s.(ready := []));
      HandleKeepsFifo(s.(ready := []), s.ready, j, t, since);
    }
  }

  lemma SameDb(s: State, r: State)
    requires NoEmpty(s, {}) && r.db == s.db
    ensures NoEmpty(r, {})
  {
  }

  /** The number of the last step before step i in which client c blocked on keys, counted from 1. */
  function Since(ops: seq<Op>, i: nat, c: Id): nat
    requires i <= |ops|
    ensures Since(ops, i, c) <= i
  {
    if i == 0 then 0 else if ops[i - 1].Block? && ops[i - 1].c == c then i else Since(ops, i - 1, c)
  }

  /** Whoever blocks on k, blocks for type t. */
  ghost predicate OneType(op: Op, k: Key, t: Btype) { op.Block? && k in op.ks ==> op.t == t }

  // A state's index does not depend on what the keys hold, so it is kept in every run.

  lemma WithoutDb(s: State, op: Op)
    requires Enabled(s, op)
             && (op.Connect? || op.Free? || op.Block? || op.BlockElsewhere? || op.Unblock? || op.Reprocess?)
    ensures Enabled(s.(db := map[]), op) && Apply(s.(db := map[]), op) == Apply(s, op).(db := map[])
            && Apply(s, op).db == s.db
  {
    hide EnqueueAll, DequeueAll, Without, Bumped;
  }

  lemma BareIsGood(s: State)
    requires Inv(s, [])
    ensures Good(s.(db := map[]))
  {
    hide Inv;
    SameIndexKeepsInv(s, s.(db := map[]), []);
  }

  lemma ClientStepKeepsInv(s: State, op: Op)
    requires Inv(s, []) && Enabled(s, op)
    requires op.Connect? || op.Free? || op.Block? || op.BlockElsewhere? || op.Unblock? || op.Reprocess?
    ensures Inv(Apply(s, op), []) && Apply(s, op).db == s.db
  {
    hide Inv, AllQuiet, NoEmpty, Apply, Enabled;
    var bare := s.(db := map[]);
    BareIsGood(s);
    WithoutDb(s, op);
    StepIsGood(bare, op) by { assert !Strands(bare, op); }
    SameIndexKeepsInv(Apply(bare, op), Apply(s, op), []);
  }

  lemma StepKeepsInv(s: State, op: Op)
    requires Inv(s, []) && NoEmpty(s, {}) && Enabled(s, op)
    ensures Inv(Apply(s, op), []) && NoEmpty(Apply(s, op), {})
  {
    hide Inv, Handle, Freed, Reprocessed, BlockedForKeys, Blocked, Unblocked, Signalled;
    var r := Apply(s, op);
    match op {
      case Add(k, v) =>
        SameIndexKeepsInv(s, s.(db := s.db[k := v]), []);
        SignalKeepsInv(s.(db := s.db[k := v]), k, []);
        SignalKeepsDb(s.(db := s.db[k := v]), k);
      case Update(_, _) => SameIndexKeepsInv(s, r, []);
      case Overwrite(_, _) => SameIndexKeepsInv(s, r, []);
      case Remove(_) => SameIndexKeepsInv(s, r, []);
      case Serve =>
        HandleKeepsInv(s, []);
        HandleKeepsNoEmpty(s, []);
      case _ => ClientStepKeepsInv(s, op);
    }
  }

  lemma SignalKeepsDb(s: State, k: Key)
    ensures Signalled(s, k).db == s.db
  {
  }

  lemma {:induction false} HandleKeepsNoEmpty(s: State, l: seq<Key>)
    requires Inv(s, l) && NoEmpty(s, {})
    ensures NoEmpty(Handle(s, l), {})
    decreases |Waiters(s)|, |l| + |s.ready|, |s.ready|
  {
    hide Index, Counters, ReprocessOk, ReadyOk, HandleKey, NoEmpty;
    if l != [] {
      HandleKeyMeasure(s, l[0]);
      HandleKeyKeepsInv(s, l);
      HandleKeyKeepsNoEmpty(s, l[0]);
      HandleKeepsNoEmpty(HandleKey(s, l[0]), l[1..]);
    } else if s.ready != [] {
      SwapKeepsInv(s);
      SameDb(s, s.(ready := []));
      SameCounts(s, s.(ready := []));
      HandleKeepsNoEmpty(s.(ready := []), s.ready);
    }
  }

  /** The index between clients and keys is exact in every state of every run, whatever is overwritten. */
  lemma {:induction false} RunKeepsIndex(ss: seq<State>, ops: seq<Op>, i: nat)
    requires IsRun(ss, ops) && i < |ss|
    ensures Inv(ss[i], []) && NoEmpty(ss[i], {})
  {
    hide Inv, NoEmpty, Enabled, Apply;
    if i == 0 {
      InitialIsGood();
    } else {
      RunKeepsIndex(ss, ops, i - 1);
      StepKeepsInv(ss[i - 1], ops[i - 1]);
    }
  }

  // ---------- steps and the order ----------

  lemma SameQueue(s: State, r: State, k: Key, t: Btype, since: Id -> nat)
    requires Fifo(s, k, t, since) && Queue(r, k) == Queue(s, k)
    requires forall c | c in Queue(s, k) :: c in r.clients && r.clients[c].btype == s.clients[c].btype
    ensures Fifo(r, k, t, since)
  {
    hide InOrder;
  }

  lemma IdleNotQueued(s: State, c: Id, k: Key)
    requires Index(s) && (c in s.clients ==> !s.clients[c].blocked)
    ensures c !in Queue(s, k)
  {
    QueueClients(s, k);
    if c in s.clients { assert ClientOk(s, c); }
  }

  lemma BlockKeepsFifo(s: State, op: Op, k: Key, t: Btype, since: Id -> nat, now: nat)
    requires Index(s) && op.Block? && Enabled(s, op) && OneType(op, k, t) && Fifo(s, k, t, since)
    requires forall c | c in Queue(s, k) :: since(c) < now
    ensures Fifo(Apply(s, op), k, t, c => if c == op.c then now else since(c))
  {
    hide Index, EnqueueAll, Bumped;
    var r := Apply(s, op);
    IdleNotQueued(s, op.c, k);
    IdleHasNoKeys(s, op.c);
    EnqueueAllMeans(s.waiting, {}, op.ks, op.c);
    assert Queue(r, k) == if k in op.ks then Queue(s, k) + [op.c] else Queue(s, k);
  }

  lemma IdleHasNoKeys(s: State, c: Id)
    requires Index(s) && c in s.clients && !s.clients[c].blocked
    ensures s.clients[c].keys == {}
  {
    assert ClientOk(s, c);
  }

  lemma FreeKeepsFifo(s: State, c: Id, k: Key, t: Btype, since: Id -> nat)
    requires Index(s) && c in s.clients && Fifo(s, k, t, since)
    ensures Fifo(Freed(s, c), k, t, since)
  {
    hide Index, Unblocked, InOrder, Without;
    var s1 := if s.clients[c].blocked then Unblocked(s, c) else s;
    if s.clients[c].blocked {
      UnblockKeepsFifo(s, c, k, t, since);
      UnblockKeepsIndex(s, c);
      UnblockedClients(s, c);
    }
    IdleNotQueued(s1, c, k);
    SameQueue(s1, Forgotten(s1, c), k, t, since);
  }

  lemma StepKeepsFifo(s: State, op: Op, k: Key, t: Btype, since: Id -> nat, now: nat)
    requires Inv(s, []) && NoEmpty(s, {}) && Enabled(s, op) && OneType(op, k, t) && Fifo(s, k, t, since)
    requires forall c | c in Queue(s, k) :: since(c) < now
    ensures Fifo(Apply(s, op), k, t, if op.Block? then c => if c == op.c then now else since(c) else since)
  {
    hide Index, Counters, ReprocessOk, ReadyOk, Handle, Freed, BlockedForKeys, Unblocked, InOrder;
    match op {
      case Free(c) => FreeKeepsFifo(s, c, k, t, since);
      case Block(_, _, _, _, _) => BlockKeepsFifo(s, op, k, t, since, now);
      case BlockElsewhere(c, _) => IdleNotQueued(s, c, k);
      case Unblock(c) => UnblockKeepsFifo(s, c, k, t, since);
      case Serve => HandleKeepsFifo(s, [], k, t, since);
      case _ =>
    }
  }

  lemma {:induction false} SinceBefore(ops: seq<Op>, i: nat, c: Id)
    requires i < |ops|
    ensures Since(ops, i, c) < i + 1
    ensures Since(ops, i + 1, c) == if ops[i].Block? && ops[i].c == c then i + 1 else Since(ops, i, c)
  {
  }

  lemma SameOrder(s: State, k: Key, t: Btype, since: Id -> nat, since': Id -> nat)
    requires Fifo(s, k, t, since) && forall c :: since(c) == since'(c)
    ensures Fifo(s, k, t, since')
  {
  }

  /** First in, first out: if all that block on a key block for the same type, the key's queue is at
      every point of every run in the order in which its clients blocked. */
  lemma {:induction false} FirstInFirstOut(ss: seq<State>, ops: seq<Op>, i: nat, k: Key, t: Btype)
    requires IsRun(ss, ops) && i < |ss| && forall j | 0 <= j < |ops| :: OneType(ops[j], k, t)
    ensures Fifo(ss[i], k, t, c => Since(ops, i, c))
  {
    hide Inv, NoEmpty, Enabled, Apply, Fifo, Since;
    if i == 0 {
      NobodyYet(k, t, c => Since(ops, 0, c));
    } else {
      var s, op := ss[i - 1], ops[i - 1];
      var since: Id -> nat := c => Since(ops, i - 1, c);
      FirstInFirstOut(ss, ops, i - 1, k, t);
      RunKeepsIndex(ss, ops, i - 1);
      StepKeepsFifo(s, op, k, t, since, i);
      forall c ensures Since(ops, i, c) == if op.Block? && op.c == c then i else Since(ops, i - 1, c) {
        SinceBefore(ops, i - 1, c);
      }
      SameOrder(ss[i], k, t, if op.Block? then c => if c == op.c then i else since(c) else since,
                c => Since(ops, i, c));
    }
  }

  lemma NobodyYet(k: Key, t: Btype, since: Id -> nat)
    ensures Fifo(INITIAL, k, t, since)
  {
  }

  // ---------- with two types the order is lost ----------

  ghost predicate Reachable(s: State) {
    exists ss: seq<State>, ops: seq<Op> :: IsRun(ss, ops) && ss[|ops|] == s
  }

  lemma StartReachable()
    ensures Reachable(INITIAL)
  {
    var ops: seq<Op> := [];
    assert IsRun([INITIAL], ops);
  }

  lemma StepReachable(s: State, op: Op)
    requires Reachable(s) && Enabled(s, op)
    ensures Reachable(Apply(s, op))
  {
    hide Enabled, Apply;
    var ss: seq<State>, ops: seq<Op> :| IsRun(ss, ops) && ss[|ops|] == s;
    var ss', ops' := ss + [Apply(s, op)], ops + [op];
    forall i | 0 <= i < |ops'| ensures Enabled(ss'[i], ops'[i]) && ss'[i + 1] == Apply(ss'[i], ops'[i]) {
      if i < |ops| { assert ss'[i] == ss[i] && ss'[i + 1] == ss[i + 1] && ops'[i] == ops[i]; }
    }
    assert IsRun(ss', ops');
  }

  lemma ReachableInv(s: State)
    requires Reachable(s)
    ensures Inv(s, [])
  {
    hide Inv, Enabled, Apply;
    var ss: seq<State>, ops: seq<Op> :| IsRun(ss, ops) && ss[|ops|] == s;
    RunKeepsIndex(ss, ops, |ops|);
  }

  /** Client c, newly connected, blocks on k. */
  lemma Joins(s: State, c: Id, t: Btype, k: Key) returns (r: State)
    requires Reachable(s) && c !in s.clients && s.db == map[] && s.ready == [] && s.readySet == {} && OnData(t)
    ensures Reachable(r) && r.db == map[] && r.ready == [] && r.readySet == {}
    ensures k in r.waiting && r.waiting[k] == Queue(s, k) + [c]
    ensures r.clients == s.clients[c := Client(true, t, false, {k}, None, true)]
  {
    hide Reachable, Bumped;
    StepReachable(s, Connect(c));
    var s1, op := Apply(s, Connect(c)), Block(c, t, [k], None, true);
    assert Enabled(s1, op);
    StepReachable(s1, op);
    r := Apply(s1, op);
    EnqueueAllMeans(s1.waiting, {}, [k], c);
    assert k in [k] && [k][0] == k;
    assert {} + Elements([k]) == {k};
  }

  /** Clients 1 and 4 wait for a sorted set, 2 and 3 for a list, in the order of their numbers.  A list of
      one element is made: 2 gets it, and 4 now stands before 1, which blocked first. */
  lemma MixedQueueReorders(k: Key, x: Elem) returns (s: State)
    ensures Reachable(s) && Enabled(s, Add(k, List([x]))) && Queue(s, k) == [1, 2, 3, 4]
    ensures var r := Apply(Apply(s, Add(k, List([x]))), Serve);
            Queue(r, k) == [3, 4, 1] && forall c | c in {1, 4} :: c in r.clients && r.clients[c].btype == OnZSet
  {
    hide Reachable, Apply;
    s := FourWait(k);
    PushServes(s, k, x);
  }

  lemma FourWait(k: Key) returns (s: State)
    ensures Reachable(s) && s.db == map[] && s.ready == [] && s.readySet == {}
    ensures k in s.waiting && s.waiting[k] == [1, 2, 3, 4]
    ensures 1 in s.clients && s.clients[1] == Client(true, OnZSet, false, {k}, None, true)
    ensures 2 in s.clients && s.clients[2] == Client(true, OnList, false, {k}, None, true)
    ensures 3 in s.clients && s.clients[3] == Client(true, OnList, false, {k}, None, true)
    ensures 4 in s.clients && s.clients[4] == Client(true, OnZSet, false, {k}, None, true)
  {
    hide Reachable;
    StartReachable();
    s := Joins(INITIAL, 1, OnZSet, k);
    s := Joins(s, 2, OnList, k);
    s := Joins(s, 3, OnList, k);
    s := Joins(s, 4, OnZSet, k);
  }

  lemma PushServes(s: State, k: Key, x: Elem)
    requires Reachable(s) && s.db == map[] && s.ready == [] && s.readySet == {}
    requires k in s.waiting && s.waiting[k] == [1, 2, 3, 4]
    requires 1 in s.clients && s.clients[1] == Client(true, OnZSet, false, {k}, None, true)
    requires 2 in s.clients && s.clients[2] == Client(true, OnList, false, {k}, None, true)
    requires 3 in s.clients && s.clients[3] == Client(true, OnList, false, {k}, None, true)
    requires 4 in s.clients && s.clients[4] == Client(true, OnZSet, false, {k}, None, true)
    ensures Enabled(s, Add(k, List([x])))
    ensures var r := Apply(Apply(s, Add(k, List([x]))), Serve);
            Queue(r, k) == [3, 4, 1] && forall c | c in {1, 4} :: c in r.clients && r.clients[c].btype == OnZSet
  {
    hide Reachable, Handle, Inv;
    var op := Add(k, List([x]));
    StepReachable(s, op);
    ReachableInv(Apply(s, op));
    OneElement(Apply(s, op), k, x);
  }

  lemma OneElement(s: State, k: Key, x: Elem)
    requires Inv(s, []) && k in s.db && s.db[k] == List([x]) && s.ready == [k] && k in s.waiting
             && s.waiting[k] == [1, 2, 3, 4]
    requires 1 in s.clients && s.clients[1] == Client(true, OnZSet, false, {k}, None, true)
    requires 2 in s.clients && s.clients[2] == Client(true, OnList, false, {k}, None, true)
    requires 3 in s.clients && s.clients[3] == Client(true, OnList, false, {k}, None, true)
    requires 4 in s.clients && s.clients[4] == Client(true, OnZSet, false, {k}, None, true)
    ensures Queue(Handle(s, []), k) == [3, 4, 1]
    ensures forall c | c in {1, 4} :: c in Handle(s, []).clients && Handle(s, []).clients[c].btype == OnZSet
  {
    hide Inv, Handle, HandleKey;
    var s1 := s.(ready := []);
    HandleStarts(s);
    InvIndex(s);
    SameIndex(s, s1);
    KeyServed(s1, k, x);
    HandleEnds(s1, k);
  }

  lemma HandleStarts(s: State)
    requires s.ready != []
    ensures Handle(s, []) == Handle(s.(ready := []), s.ready)
  {
    hide HandleKey;
  }

  lemma HandleEnds(s: State, k: Key)
    requires HandleKey(s, k).ready == []
    ensures Handle(s, [k]) == HandleKey(s, k)
  {
    hide HandleKey;
    ServeNothing(HandleKey(s, k));
    assert [k][1..] == [];
  }

  lemma KeyServed(s: State, k: Key, x: Elem)
    requires Index(s) && k in s.db && s.db[k] == List([x]) && s.ready == [] && k in s.waiting
             && s.waiting[k] == [1, 2, 3, 4]
    requires 1 in s.clients && s.clients[1].btype == OnZSet && 3 in s.clients && s.clients[3].btype == OnList
    requires 2 in s.clients && s.clients[2] == Client(true, OnList, false, {k}, None, true)
    requires 4 in s.clients && s.clients[4].btype == OnZSet
    ensures var r := HandleKey(s, k);
            && Queue(r, k) == [3, 4, 1] && r.ready == []
            && forall c | c in {1, 4} :: c in r.clients && r.clients[c].btype == OnZSet
  {
    hide Index, ServedList;
    var s0 := s.(readySet := s.readySet - {k});
    SameIndex(s, s0);
    ListQueueAfter(s0, k, 4);
    TwoVisits(s0, k, x);
    var q := Queue(s0, k);
    assert q[2..] == [3, 4] && q[..2] == [1, 2] && q[..2][1..] == [2];
    OthersHead(s0, q[..2], OnList);
    OthersHead(s0, [2], OnList);
    OthersOfNone(s0, OnList);
    assert [2][1..] == [];
    var r := ServeList(s0, k, 4);
    assert Queue(r, k) == [3, 4] + [1] == [3, 4, 1];
    assert 1 in Queue(r, k) && 4 in Queue(r, k);
  }

  lemma TwoVisits(s: State, k: Key, x: Elem)
    requires Index(s) && k in s.db && s.db[k] == List([x]) && s.ready == [] && k in s.waiting
             && s.waiting[k] == [1, 2, 3, 4]
    requires 1 in s.clients && s.clients[1].btype == OnZSet && 3 in s.clients && s.clients[3].btype == OnList
    requires 2 in s.clients && s.clients[2] == Client(true, OnList, false, {k}, None, true)
    ensures ListVisits(s, k, 4) == 2 && ServeList(s, k, 4).ready == []
  {
    hide Index, ServedList, Without;
    var s1 := Rotated(s, k);
    assert s1.waiting[k] == [2, 3, 4, 1];
    RotateKeepsIndex(s, k);
    var s2 := ServedList(s1, k, 2);
    ServedListQueue(s1, k);
    ServedBlpop(s1, k, 2);
    assert s2.ready == [] by { ServedReady(s1, k, 2); }
    assert s2.waiting[k] == [3, 4, 1] && s2.db[k] == List([]);
    assert ListVisits(s2, k, 2) == 0 && ServeList(s2, k, 2) == s2;
    assert ListVisits(s1, k, 3) == 1 && ServeList(s1, k, 3) == s2;
  }

  lemma ServedReady(s: State, k: Key, c: Id)
    requires c in s.clients && k in s.db && s.db[k].List? && s.db[k].xs != [] && s.clients[c].target.None?
    ensures ServedList(s, k, c).ready == s.ready
  {
  }
}
