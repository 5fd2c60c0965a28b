/** What every blocking operation keeps: the index is exact in both directions, the ready list and its
    dictionary agree, the counters count, and each flagged client is queued for reprocessing once. */
module BlockingIndex {
  import opened Common
  import opened Blocking

  ghost predicate NoDup<T>(q: seq<T>) { forall i, j | 0 <= i < j < |q| :: q[i] != q[j] }

  /** No queue is empty, and each names each client once, a client that waits for the key. */
  ghost predicate QueueOk(s: State, k: Key)
    requires k in s.waiting
  {
    && s.waiting[k] != []
    && NoDup(s.waiting[k])
    && forall c | c in s.waiting[k] :: c in s.clients && k in s.clients[c].keys
  }

  ghost predicate ClientOk(s: State, c: Id)
    requires c in s.clients
  {
    var cl := s.clients[c];
    && (cl.blocked <==> cl.btype != NotBlocked)
    && (cl.keys != {} <==> OnData(cl.btype))
    && (forall k | k in cl.keys :: k in s.waiting && c in s.waiting[k])
  }

  ghost predicate Index(s: State) {
    && (forall k | k in s.waiting :: QueueOk(s, k))
    && (forall c | c in s.clients :: ClientOk(s, c))
  }

  /** The unblocked list holds each flagged client exactly once. */
  ghost predicate ReprocessOk(s: State) {
    && NoDup(s.unblocked)
    && (forall c | c in s.unblocked :: c in s.clients && s.clients[c].queued)
    && (forall c | c in s.clients && s.clients[c].queued :: c in s.unblocked)
  }

  ghost function OfType(s: State, t: Btype): set<Id> { set c | c in s.clients && s.clients[c].btype == t }

  function Count(s: State, t: Btype): int { if t in s.byType then s.byType[t] else 0 }

  ghost predicate Counters(s: State) {
    && s.total == |Waiters(s)|
    && forall t: Btype | t != NotBlocked :: Count(s, t) == |OfType(s, t)|
  }

  /** The keys of the list being worked on and of the ready list are those of the dictionary. */
  ghost predicate ReadyOk(s: State, l: seq<Key>) {
    && NoDup(l + s.ready)
    && (forall k | k in l + s.ready :: k in s.readySet)
    && (forall k | k in s.readySet :: k in l + s.ready)
  }

  ghost predicate Inv(s: State, l: seq<Key>) { Index(s) && ReprocessOk(s) && Counters(s) && ReadyOk(s, l) }

  // ---------- queues ----------

  lemma TailNoDup<T>(q: seq<T>)
    requires NoDup(q) && q != []
    ensures NoDup(q[1..]) && q[0] !in q[1..]
  {
    var r := q[1..];
    assert forall i | 0 <= i < |r| :: r[i] == q[i + 1];
  }

  lemma ConsNoDup<T>(x: T, q: seq<T>)
    requires NoDup(q) && x !in q
    ensures NoDup([x] + q)
  {
  }

  lemma {:induction false} WithoutMeans(q: seq<Id>, c: Id)
    requires NoDup(q)
    ensures NoDup(Without(q, c))
    ensures forall d :: d in Without(q, c) <==> d in q && d != c
  {
    hide NoDup;
    if q != [] {
      TailNoDup(q);
      WithoutMeans(q[1..], c);
      assert q == [q[0]] + q[1..];
      if q[0] != c { ConsNoDup(q[0], Without(q[1..], c)); }
    }
  }

  /** The head of a queue is dequeued by dropping it. */
  lemma WithoutHead(q: seq<Id>)
    requires q != []
    ensures Without(q, q[0]) == q[1..]
  {
  }

  // ---------- counting ----------

  lemma SetChange(a: set<Id>, b: set<Id>, c: Id)
    requires a - {c} == b - {c}
    ensures |b| == |a| + (if c in b then 1 else 0) - (if c in a then 1 else 0)
  {
    var w := a - {c};
    assert a == if c in a then w + {c} else w;
    assert b == if c in b then w + {c} else w;
  }

  lemma CountChange(s: State, t: State, c: Id)
    requires c in s.clients && t.clients.Keys == s.clients.Keys
    requires forall d | d in s.clients && d != c :: t.clients[d] == s.clients[d]
    ensures |Waiters(t)| == |Waiters(s)| + (if t.clients[c].btype != NotBlocked then 1 else 0)
                            - (if s.clients[c].btype != NotBlocked then 1 else 0)
    ensures forall b: Btype :: |OfType(t, b)| == |OfType(s, b)| + (if t.clients[c].btype == b then 1 else 0)
                               - (if s.clients[c].btype == b then 1 else 0)
  {
    assert forall d :: d in t.clients <==> d in s.clients;
    assert Waiters(s) - {c} == Waiters(t) - {c};
    SetChange(Waiters(s), Waiters(t), c);
    forall b: Btype
      ensures |OfType(t, b)| == |OfType(s, b)| + (if t.clients[c].btype == b then 1 else 0)
                                - (if s.clients[c].btype == b then 1 else 0)
    {
      assert OfType(s, b) - {c} == OfType(t, b) - {c};
      SetChange(OfType(s, b), OfType(t, b), c);
    }
  }

  // ---------- blocking ----------

  /** What the enqueueing loop does to one queue. */
  lemma {:induction false} EnqueueAllMeans(w: map<Key, seq<Id>>, have: set<Key>, ks: seq<Key>, c: Id)
    ensures var r := EnqueueAll(w, have, ks, c);
            && (forall k | k in w :: k in r)
            && (forall k | k in r :: k in w || (k in ks && k !in have))
            && (forall k | k in ks && k !in have :: k in r && r[k] == (if k in w then w[k] else []) + [c])
            && (forall k | k in r && (k !in ks || k in have) :: k in w && r[k] == w[k])
    decreases |ks|
  {
    if ks != [] {
      var k0, rest := ks[0], ks[1..];
      assert ks == [k0] + rest;
      if k0 in have {
        EnqueueAllMeans(w, have, rest, c);
      } else {
        EnqueueAllMeans(Enqueue(w, k0, c), have + {k0}, rest, c);
      }
    }
  }

  lemma BlockKeepsIndex(s: State, c: Id, t: Btype, ks: seq<Key>, target: Option<Key>, front: bool)
    requires Index(s) && c in s.clients && !s.clients[c].blocked && OnData(t) && ks != []
    ensures Index(BlockedForKeys(s, c, t, ks, target, front))
  {
    var r := BlockedForKeys(s, c, t, ks, target, front);
    assert ClientOk(s, c);
    EnqueueAllMeans(s.waiting, {}, ks, c);
    assert ks[0] in Elements(ks);
    forall k | k in r.waiting ensures QueueOk(r, k) {
      if k in s.waiting { assert QueueOk(s, k); }
      assert k in ks <==> k in Elements(ks);
    }
    forall d | d in r.clients ensures ClientOk(r, d) { assert ClientOk(s, d); }
  }

  lemma BlockKeepsInv(s: State, c: Id, t: Btype, ks: seq<Key>, target: Option<Key>, front: bool)
    requires Inv(s, []) && c in s.clients && !s.clients[c].blocked && OnData(t) && ks != []
    ensures Inv(BlockedForKeys(s, c, t, ks, target, front), [])
  {
    hide Index, EnqueueAll, NoDup;
    BlockKeepsIndex(s, c, t, ks, target, front);
    var r := BlockedForKeys(s, c, t, ks, target, front);
    NotBlockedMeans(s, c);
    CountChange(s, r, c);
  }

  lemma NotBlockedMeans(s: State, c: Id)
    requires Index(s) && c in s.clients
    ensures s.clients[c].blocked <==> s.clients[c].btype != NotBlocked
  {
    assert ClientOk(s, c);
  }

  // ---------- unblocking ----------

  lemma UnblockKeepsIndex(s: State, c: Id)
    requires Index(s) && c in s.clients && s.clients[c].blocked
    ensures Index(Unblocked(s, c))
  {
    var r := Unblocked(s, c);
    assert ClientOk(s, c);
    forall k | k in r.waiting ensures QueueOk(r, k) {
      assert QueueOk(s, k);
      WithoutMeans(s.waiting[k], c);
    }
    forall d | d in r.clients ensures ClientOk(r, d) {
      assert ClientOk(s, d);
      if d != c {
        forall k | k in s.clients[d].keys ensures k in r.waiting && d in r.waiting[k] {
          assert QueueOk(s, k);
          WithoutMeans(s.waiting[k], c);
        }
      }
    }
  }

  lemma UnblockKeepsInv(s: State, c: Id, l: seq<Key>)
    requires Inv(s, l) && c in s.clients && s.clients[c].blocked
    ensures Inv(Unblocked(s, c), l)
  {
    hide Index, DequeueAll;
    UnblockKeepsIndex(s, c);
    NotBlockedMeans(s, c);
    CountChange(s, Unblocked(s, c), c);
  }

  // ---------- serving ----------

  /** The index does not depend on the values, the replies or the ready keys. */
  lemma SameIndex(s: State, r: State)
    requires Index(s) && r == s.(db := r.db, log := r.log, ready := r.ready, readySet := r.readySet)
    ensures Index(r)
  {
    hide NoDup;
    forall k | k in r.waiting ensures QueueOk(r, k) { assert QueueOk(s, k); }
    forall c | c in r.clients ensures ClientOk(r, c) { assert ClientOk(s, c); }
  }

  lemma RotateKeepsIndex(s: State, k: Key)
    requires Index(s) && HasHead(s, k)
    ensures Index(Rotated(s, k))
  {
    var r := Rotated(s, k);
    var q := s.waiting[k];
    assert QueueOk(s, k);
    assert q == [q[0]] + q[1..];
    assert forall c :: c in r.waiting[k] <==> c in q;
    forall j | j in r.waiting ensures QueueOk(r, j) { assert QueueOk(s, j); }
    forall c | c in r.clients ensures ClientOk(r, c) { assert ClientOk(s, c); }
  }

  lemma SameCounts(s: State, r: State)
    requires r.clients == s.clients
    ensures Waiters(r) == Waiters(s) && forall t: Btype :: OfType(r, t) == OfType(s, t)
  {
    assert Waiters(r) == Waiters(s);
    forall t: Btype ensures OfType(r, t) == OfType(s, t) {}
  }

  lemma RotateKeepsInv(s: State, k: Key, l: seq<Key>)
    requires Inv(s, l) && HasHead(s, k)
    ensures Inv(Rotated(s, k), l)
  {
    hide Index, NoDup, OfType, Waiters;
    RotateKeepsIndex(s, k);
    SameCounts(s, Rotated(s, k));
  }

  lemma SameIndexKeepsInv(s: State, r: State, l: seq<Key>)
    requires Inv(s, l) && r == s.(db := r.db, log := r.log)
    ensures Inv(r, l)
  {
    hide Index, NoDup, OfType, Waiters;
    SameIndex(s, r);
    SameCounts(s, r);
  }

  lemma SignalKeepsInv(s: State, k: Key, l: seq<Key>)
    requires Inv(s, l)
    ensures Inv(Signalled(s, k), l)
  {
    hide Index, OfType, Waiters;
    var r := Signalled(s, k);
    SameIndex(s, r);
    SameCounts(s, r);
    assert r != s ==> l + r.ready == (l + s.ready) + [k];
  }

  lemma ServedListKeepsInv(s: State, k: Key, c: Id, l: seq<Key>)
    requires Inv(s, l) && c in s.clients && s.clients[c].blocked
    requires k in s.db && s.db[k].List? && s.db[k].xs != []
    ensures Inv(ServedList(s, k, c), l)
  {
    hide Inv, Unblocked, Popped1, Pushed1;
    var cl := s.clients[c];
    var (x, rest) := Popped1(s.db[k].xs, cl.front);
    var s0 := s.(db := s.db[k := List(rest)]);
    SameIndexKeepsInv(s, s0, l);
    UnblockKeepsInv(s0, c, l);
    var s1 := Unblocked(s0, c);
    if cl.target.Some? && cl.target.value !in s1.db {
      var s2 := s1.(db := s1.db[cl.target.value := List([])]);
      SameIndexKeepsInv(s1, s2, l);
      SignalKeepsInv(s2, cl.target.value, l);
      SameIndexKeepsInv(Signalled(s2, cl.target.value), ServedList(s, k, c), l);
    } else {
      SameIndexKeepsInv(s1, ServedList(s, k, c), l);
    }
  }

  lemma ServedZSetKeepsInv(s: State, k: Key, c: Id, l: seq<Key>)
    requires Inv(s, l) && c in s.clients && s.clients[c].blocked
    requires k in s.db && s.db[k].ZSet? && s.db[k].zs != []
    ensures Inv(ServedZSet(s, k, c), l)
  {
    hide Inv, Unblocked, Popped1;
    UnblockKeepsInv(s, c, l);
    SameIndexKeepsInv(Unblocked(s, c), ServedZSet(s, k, c), l);
  }

  /** The client at the head of a queue waits for data. */
  lemma HeadWaits(s: State, k: Key)
    requires Index(s) && k in s.waiting
    ensures HasHead(s, k) && s.clients[s.waiting[k][0]].blocked
  {
    assert QueueOk(s, k);
    assert ClientOk(s, s.waiting[k][0]);
  }

  lemma {:induction false} ServeListKeepsInv(s: State, k: Key, n: nat, l: seq<Key>)
    requires Inv(s, l)
    ensures Inv(ServeList(s, k, n), l)
    decreases n
  {
    hide Index, Counters, ReadyOk, ReprocessOk, ServedList, Rotated;
    if n == 0 || !HasHead(s, k) || k !in s.db || !s.db[k].List? {
    } else {
      var c := s.waiting[k][0];
      HeadWaits(s, k);
      if !s.clients[c].btype.OnList? {
        RotateKeepsInv(s, k, l);
        ServeListKeepsInv(Rotated(s, k), k, n - 1, l);
      } else if s.db[k].xs != [] {
        ServedListKeepsInv(s, k, c, l);
        ServeListKeepsInv(ServedList(s, k, c), k, n - 1, l);
      }
    }
  }

  lemma {:induction false} ServeZSetKeepsInv(s: State, k: Key, n: nat, l: seq<Key>)
    requires Inv(s, l)
    ensures Inv(ServeZSet(s, k, n), l)
    decreases n
  {
    hide Index, Counters, ReadyOk, ReprocessOk, ServedZSet, Rotated;
    if n == 0 || !HasHead(s, k) || k !in s.db || !s.db[k].ZSet? || s.db[k].zs == [] {
    } else {
      var c := s.waiting[k][0];
      HeadWaits(s, k);
      if !s.clients[c].btype.OnZSet? {
        RotateKeepsInv(s, k, l);
        ServeZSetKeepsInv(Rotated(s, k), k, n - 1, l);
      } else {
        ServedZSetKeepsInv(s, k, c, l);
        ServeZSetKeepsInv(ServedZSet(s, k, c), k, n - 1, l);
      }
    }
  }

  /** Taking the first key off the list and out of the dictionary. */
  lemma TakeKeepsInv(s: State, l: seq<Key>)
    requires Inv(s, l) && l != []
    ensures Inv(s.(readySet := s.readySet - {l[0]}), l[1..])
  {
    hide Index, OfType, Waiters;
    var r := s.(readySet := s.readySet - {l[0]});
    SameIndex(s, r);
    SameCounts(s, r);
    var all, rest := l + s.ready, l[1..] + s.ready;
    assert rest == all[1..] && all[0] == l[0];
    TailNoDup(all);
    assert all == [l[0]] + rest;
  }

  lemma HandleKeyKeepsInv(s: State, l: seq<Key>)
    requires Inv(s, l) && l != []
    ensures Inv(HandleKey(s, l[0]), l[1..])
  {
    hide Inv, ServeList, ServeZSet;
    var k := l[0];
    var s0 := s.(readySet := s.readySet - {k});
    TakeKeepsInv(s, l);
    ServeListKeepsInv(s0, k, QueueLength(s, k), l[1..]);
    ServeZSetKeepsInv(s0, k, QueueLength(s, k), l[1..]);
    var s1 := ServeList(s0, k, QueueLength(s, k));
    SameIndexKeepsInv(s1, s1.(db := s1.db - {k}), l[1..]);
  }

  lemma SwapKeepsInv(s: State)
    requires Inv(s, [])
    ensures Inv(s.(ready := []), s.ready)
  {
    hide NoDup, Index, OfType, Waiters;
    var r := s.(ready := []);
    SameIndex(s, r);
    SameCounts(s, r);
    assert s.ready + [] == s.ready && [] + s.ready == s.ready;
  }

  /** Serving all ready keys keeps the index exact and empties the ready list. */
  lemma {:induction false} HandleKeepsInv(s: State, l: seq<Key>)
    requires Inv(s, l)
    ensures Inv(Handle(s, l), []) && Handle(s, l).ready == [] && Handle(s, l).readySet == {}
    decreases |Waiters(s)|, |l| + |s.ready|, |s.ready|
  {
    hide Index, Counters, ReprocessOk, HandleKey;
    if l != [] {
      HandleKeyMeasure(s, l[0]);
      HandleKeyKeepsInv(s, l);
      HandleKeepsInv(HandleKey(s, l[0]), l[1..]);
    } else if s.ready != [] {
      SwapKeepsInv(s);
      HandleKeepsInv(s.(ready := []), s.ready);
    }
  }
}
