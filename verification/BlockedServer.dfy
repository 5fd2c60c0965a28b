/** blocked.c as it updates the server: each method proved to be the function of the whole state that
    stands for it.  A queue is only ever read while it exists. */
module BlockedServer {
  import opened Common
  import opened Blocking
  import opened BlockingIndex
  import opened BlockingServe

  class BlockedServer {
    var db: map<Key, Value>
    var clients: map<Id, Client>
    var waiting: map<Key, seq<Id>>
    var ready: seq<Key>
    var readySet: set<Key>
    var unblocked: seq<Id>
    var total: int
    var byType: map<Btype, int>
    var log: seq<(Id, Reply)>

    ghost function View(): State
      reads this
    {
      State(db, clients, waiting, ready, readySet, unblocked, total, byType, log)
    }

    // ---------- blocking ----------

    /** blockClient. */
    method BlockClient(c: Id, t: Btype)
      requires c in clients
      modifies `clients, `total, `byType
      ensures View() == Blocked(old(View()), c, t)
    {
      clients := clients[c := clients[c].(blocked := true, btype := t)];
      total := total + 1;
      byType := byType[t := (if t in byType then byType[t] else 0) + 1];
    }

    /** The loop of blockForKeys. */
    method EnqueueKeys(c: Id, ks: seq<Key>)
      requires c in clients
      modifies `clients, `waiting
      ensures waiting == EnqueueAll(old(waiting), old(clients[c].keys), ks, c)
      ensures clients == old(clients)[c := old(clients[c]).(keys := old(clients[c].keys) + Elements(ks))]
    {
      hide EnqueueAll, Elements;
      ghost var cl := clients[c];
      var j := 0;
      ghost var have := cl.keys;
      assert ks[0..] == ks && ks[..0] == [];
      NoElements();
      assert clients == clients[c := cl.(keys := have)];
      while j < |ks|
        invariant j <= |ks| && have == cl.keys + Elements(ks[..j])
        invariant clients == old(clients)[c := cl.(keys := have)]
        invariant EnqueueAll(waiting, have, ks[j..], c) == EnqueueAll(old(waiting), cl.keys, ks, c)
      {
        var k := ks[j];
        ElementsNext(ks, j);
        EnqueueNext(waiting, have, ks, j, c);
        if k !in clients[c].keys {
          clients := clients[c := clients[c].(keys := clients[c].keys + {k})];
          var q := if k in waiting then waiting[k] else [];
          waiting := waiting[k := q + [c]];
        }
        have := have + {k};
        assert clients[c].keys == have;
        j := j + 1;
      }
      assert ks[..j] == ks && ks[j..] == [];
      NoneEnqueued(waiting, have, c);
    }

    /** blockForKeys. */
    method BlockForKeys(c: Id, t: Btype, ks: seq<Key>, target: Option<Key>, front: bool)
      requires c in clients
      modifies `clients, `waiting, `total, `byType
      ensures View() == BlockedForKeys(old(View()), c, t, ks, target, front)
    {
      hide EnqueueAll, Elements, Blocked;
      ghost var cl := clients[c];
      clients := clients[c := clients[c].(target := target, front := front)];
      EnqueueKeys(c, ks);
      assert clients == old(clients)[c := cl.(keys := cl.keys + Elements(ks), target := target, front := front)];
      BlockClient(c, t);
    }

    // ---------- unblocking ----------

    /** unblockClientWaitingData: every queue it looks for is there. */
    method UnblockClientWaitingData(c: Id)
      requires c in clients && Index(View()) && OnData(clients[c].btype)
      modifies `waiting, `clients
      ensures waiting == DequeueAll(old(waiting), old(clients[c].keys), c)
      ensures clients == old(clients)[c := old(clients[c]).(keys := {}, target := None)]
    {
      hide NoDup, Without;
      var keys := clients[c].keys;
      assert ClientOk(View(), c);
      assert DequeueAll(waiting, {}, c) == waiting;
      var todo := keys;
      while todo != {}
        invariant todo <= keys && waiting == DequeueAll(old(waiting), keys - todo, c) && clients == old(clients)
        decreases |todo|
      {
        var k :| k in todo;
        assert k in old(waiting);
        NextDequeued(old(waiting), keys - todo, k, c);
        var q := Without(waiting[k], c);
        if q == [] { waiting := waiting - {k}; } else { waiting := waiting[k := q]; }
        assert keys - todo + {k} == keys - (todo - {k});
        todo := todo - {k};
      }
      assert keys - todo == keys;
      clients := clients[c := clients[c].(keys := {}, target := None)];
    }

    /** queueClientForReprocessing. */
    method QueueClientForReprocessing(c: Id)
      requires c in clients
      modifies `clients, `unblocked
      ensures View() == Requeued(old(View()), c)
    {
      if !clients[c].queued {
        clients := clients[c := clients[c].(queued := true)];
        unblocked := unblocked + [c];
      }
    }

    /** unblockClient; front, the memory of the last command, is reset with the rest. */
    method UnblockClient(c: Id)
      requires c in clients && Index(View()) && clients[c].blocked
      modifies `clients, `waiting, `unblocked, `total, `byType
      ensures View() == Unblocked(old(View()), c)
    {
      hide DequeueAll, Index, Requeued;
      var t := clients[c].btype;
      if OnData(t) { UnblockClientWaitingData(c); }
      total := total - 1;
      byType := byType[t := (if t in byType then byType[t] else 0) - 1];
      clients := clients[c := IDLE.(queued := clients[c].queued)];
      assert clients == old(clients)[c := IDLE.(queued := old(clients[c].queued))];
      QueueClientForReprocessing(c);
    }

    /** processUnblockedClients, up to what the clients then execute. */
    method ProcessUnblockedClients()
      requires ReprocessOk(View())
      modifies `unblocked, `clients
      ensures ReprocessOk(View()) && unblocked == []
      ensures clients.Keys == old(clients.Keys)
      ensures forall c | c in clients :: clients[c] == old(clients)[c].(queued := false)
    {
      while unblocked != []
        invariant ReprocessOk(View()) && clients.Keys == old(clients.Keys)
        invariant forall c | c in clients :: clients[c] == old(clients)[c].(queued := clients[c].queued)
        decreases |unblocked|
      {
        var c := unblocked[0];
        TailNoDup(unblocked);
        assert unblocked == [c] + unblocked[1..];
        unblocked := unblocked[1..];
        clients := clients[c := clients[c].(queued := false)];
      }
    }

    // ---------- ready keys ----------

    /** signalKeyAsReady. */
    method SignalKeyAsReady(k: Key)
      modifies `ready, `readySet
      ensures View() == Signalled(old(View()), k)
    {
      if k !in waiting || k in readySet { return; }
      ready := ready + [k];
      readySet := readySet + {k};
    }

    /** dbAdd. */
    method DbAdd(k: Key, v: Value)
      requires k !in db
      modifies `db, `ready, `readySet
      ensures View() == Added(old(View()), k, v)
    {
      db := db[k := v];
      if !v.Other? { SignalKeyAsReady(k); }
    }

    // ---------- serving ----------

    /** serveClientBlockedOnList, with rpoplpushHandlePush inside; false is C_ERR. */
    method ServeClientBlockedOnList(c: Id, k: Key, dst: Option<Key>, x: Elem) returns (ok: bool)
      modifies `db, `ready, `readySet, `log
      ensures ok <==> dst.None? || dst.value !in old(db) || old(db)[dst.value].List?
      ensures !ok ==> View() == Logged(old(View()), c, WrongType)
      ensures ok && dst.None? ==> View() == Logged(old(View()), c, Popped(k, x))
      ensures ok && dst.Some? ==> View() == Logged(PushedTo(old(View()), dst.value, x), c, Moved(x))
    {
      if dst.None? {
        log := log + [(c, Popped(k, x))];
        return true;
      }
      var d := dst.value;
      if d in db && !db[d].List? {
        log := log + [(c, WrongType)];
        return false;
      }
      if d !in db { DbAdd(d, List([])); }
      db := db[d := List([x] + db[d].xs)];
      log := log + [(c, Moved(x))];
      ok := true;
    }

    /** The body of the loop for one client blocked on the list. */
    method ServeReceiver(c: Id, k: Key)
      requires c in clients && clients[c].blocked && Index(View())
      requires k in db && db[k].List? && db[k].xs != []
      modifies this
      ensures View() == ServedList(old(View()), k, c)
    {
      hide Index, Unblocked;
      var dst, front := clients[c].target, clients[c].front;
      var xs := db[k].xs;
      var x := if front then xs[0] else xs[|xs| - 1];
      var rest := if front then xs[1..] else xs[..|xs| - 1];
      ghost var s0 := View().(db := db[k := List(rest)]);
      SameIndex(View(), s0);
      db := db[k := List(rest)];
      UnblockKeepsDb(s0, c);
      UnblockClient(c);
      var ok := ServeClientBlockedOnList(c, k, dst, x);
      if !ok { db := db[k := List(if front then [x] + rest else rest + [x])]; }
    }

    method Rotate(k: Key)
      requires k in waiting && waiting[k] != []
      modifies `waiting
      ensures View() == Rotated(old(View()), k)
    {
      waiting := waiting[k := waiting[k][1..] + [waiting[k][0]]];
    }

    /** The clients of a list key, from the first blocked on: while some of the numclients are left, the
        queue exists and has at least that many members. */
    method ServeListClients(k: Key)
      requires Index(View()) && k in db && db[k].List? && k in waiting
      modifies this
      ensures View() == ServeList(old(View()), k, |old(waiting)[k]|) && Index(View())
    {
      hide Index, ServedList, Rotated;
      var numclients: nat := |waiting[k]|;
      while numclients > 0
        invariant Index(View()) && k in db && db[k].List?
        invariant numclients <= |Queue(View(), k)|
        invariant ServeList(View(), k, numclients) == ServeList(old(View()), k, |old(waiting)[k]|)
      {
        HeadWaits(View(), k);
        var c := waiting[k][0];
        if !clients[c].btype.OnList? {
          RotateKeepsIndex(View(), k);
          RotatedOnly(View(), k);
          RotatedQueue(View(), k);
          Rotate(k);
        } else if db[k].xs == [] {
          return;
        } else {
          ServedListQueue(View(), k);
          ServedListKeepsIndex(View(), k, c);
          ServeReceiver(c, k);
        }
        numclients := numclients - 1;
      }
      NothingToServe(View(), k);
    }

    /** genericZpopCommand with one element. */
    method PopZSet(c: Id, k: Key, front: bool)
      requires k in db && db[k].ZSet? && db[k].zs != []
      modifies `db, `log
      ensures var (x, rest) := Popped1(old(db)[k].zs, front);
              && db == (if rest == [] then old(db) - {k} else old(db)[k := ZSet(rest)])
              && log == old(log) + [(c, Popped(k, x))]
    {
      var zs := db[k].zs;
      var x := if front then zs[0] else zs[|zs| - 1];
      var rest := if front then zs[1..] else zs[..|zs| - 1];
      log := log + [(c, Popped(k, x))];
      db := if rest == [] then db - {k} else db[k := ZSet(rest)];
    }

    method ServeZSetClients(k: Key)
      requires Index(View()) && k in db && db[k].ZSet? && k in waiting
      modifies this
      ensures View() == ServeZSet(old(View()), k, |old(waiting)[k]|) && Index(View())
    {
      hide Index, Unblocked, Rotated, Popped1;
      var numclients: nat := |waiting[k]|;
      var zcard: nat := |db[k].zs|;
      while numclients > 0 && zcard > 0
        invariant Index(View())
        invariant zcard > 0 ==> k in db && db[k].ZSet? && |db[k].zs| == zcard
        invariant zcard == 0 ==> k !in db || db[k] == ZSet([])
        invariant numclients <= |Queue(View(), k)|
        invariant ServeZSet(View(), k, numclients) == ServeZSet(old(View()), k, |old(waiting)[k]|)
      {
        HeadWaits(View(), k);
        var c := waiting[k][0];
        if !clients[c].btype.OnZSet? {
          RotateKeepsIndex(View(), k);
          RotatedOnly(View(), k);
          RotatedQueue(View(), k);
          Rotate(k);
        } else {
          ServedZSetQueue(View(), k);
          UnblockKeepsDb(View(), c);
          PopLength(db[k].zs, clients[c].front);
          var front := clients[c].front;
          UnblockClient(c);
          PopZSet(c, k, front);
          zcard := zcard - 1;
        }
        numclients := numclients - 1;
      }
      NothingLeft(View(), k, numclients);
    }

    /** The body of the inner loop of handleClientsBlockedOnKeys. */
    method HandleReadyKey(k: Key)
      requires Index(View())
      modifies this
      ensures View() == HandleKey(old(View()), k)
    {
      hide Index, ServeList, ServeZSet;
      ghost var s0 := View().(readySet := readySet - {k});
      SameIndex(View(), s0);
      readySet := readySet - {k};
      NothingToServe(View(), k);
      if k in db && db[k].List? {
        if k in waiting { ServeListClients(k); }
        if k in db && db[k] == List([]) { db := db - {k}; }
      } else if k in db && db[k].ZSet? {
        if k in waiting { ServeZSetClients(k); }
      }
    }

    /** handleClientsBlockedOnKeys: it ends, because every key that becomes ready on the way has cost a
        blocked client, and leaves the state that working through the keys gives. */
    method HandleClientsBlockedOnKeys()
      requires Inv(View(), [])
      modifies this
      ensures View() == Handle(old(View()), []) && Inv(View(), []) && ready == []
    {
      hide Inv, HandleKey, Waiters;
      while ready != []
        invariant Inv(View(), []) && Handle(View(), []) == Handle(old(View()), [])
        decreases |Waiters(View())|, |ready|
      {
        SwapKeepsInv(View());
        ghost var before := |Waiters(View())|;
        ghost var s := View().(ready := []);
        SameWaiters(View(), s);
        var l := ready;
        ready := [];
        while l != []
          invariant Inv(View(), l) && Handle(View(), l) == Handle(old(View()), [])
          invariant |Waiters(View())| < before || (|Waiters(View())| == before && ready == [])
          decreases |l|
        {
          HandleKeyMeasure(View(), l[0]);
          HandleKeyKeepsInv(View(), l);
          InvGivesIndex(View(), l);
          HandleReadyKey(l[0]);
          l := l[1..];
        }
      }
    }
  }

  lemma NoElements()
    ensures Elements([]) == {}
  {
  }

  lemma NoneEnqueued(w: map<Key, seq<Id>>, have: set<Key>, c: Id)
    ensures EnqueueAll(w, have, [], c) == w
  {
  }

  lemma EnqueueNext(w: map<Key, seq<Id>>, have: set<Key>, ks: seq<Key>, j: nat, c: Id)
    requires j < |ks|
    ensures EnqueueAll(w, have, ks[j..], c)
            == EnqueueAll(if ks[j] in have then w else Enqueue(w, ks[j], c), have + {ks[j]}, ks[j + 1..], c)
  {
    assert ks[j..][1..] == ks[j + 1..];
    assert ks[j] in have ==> have + {ks[j]} == have;
  }

  lemma ElementsNext(ks: seq<Key>, j: nat)
    requires j < |ks|
    ensures Elements(ks[..j + 1]) == Elements(ks[..j]) + {ks[j]}
  {
    var a, b := ks[..j], ks[..j + 1];
    assert b == a + [ks[j]];
    assert forall k :: k in Elements(b) <==> k in b;
    assert forall k :: k in Elements(a) <==> k in a;
  }

  lemma NextDequeued(w: map<Key, seq<Id>>, done: set<Key>, k: Key, c: Id)
    requires k in w && k !in done
    ensures k in DequeueAll(w, done, c) && DequeueAll(w, done, c)[k] == w[k]
    ensures DequeueAll(w, done + {k}, c) == Dequeue(DequeueAll(w, done, c), k, c)
  {
    hide Without;
  }

  lemma PopLength(xs: seq<Elem>, front: bool)
    requires xs != []
    ensures |Popped1(xs, front).1| == |xs| - 1
  {
  }

  lemma NothingToServe(s: State, k: Key)
    ensures ServeList(s, k, 0) == s && ServeZSet(s, k, 0) == s
  {
  }

  lemma NothingLeft(s: State, k: Key, n: nat)
    requires n == 0 || k !in s.db || s.db[k] == ZSet([])
    ensures ServeZSet(s, k, n) == s
  {
  }

  lemma SameWaiters(s: State, r: State)
    requires r.clients == s.clients
    ensures Waiters(r) == Waiters(s)
  {
  }

  lemma InvGivesIndex(s: State, l: seq<Key>)
    requires Inv(s, l)
    ensures Index(s)
  {
  }
}
