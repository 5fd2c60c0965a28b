/** Clients blocked on keys: the two-way index between clients and keys, the queue of ready keys, and
    what serving does to them, as functions of the whole state. */
module Blocking {
  import opened Common

  datatype Key = Key(db: nat, name: string)

  type Id = nat

  type Elem = string

  datatype Value = List(xs: seq<Elem>) | ZSet(zs: seq<Elem>) | Other

  datatype Btype = NotBlocked | OnList | OnWait | OnModule | OnStream | OnZSet

  /** front: the last command was BLPOP or BZPOPMIN. */
  datatype Client = Client(
    blocked: bool,
    btype: Btype,
    queued: bool,
    keys: set<Key>,
    target: Option<Key>,
    front: bool)

  datatype Reply = Popped(key: Key, elem: Elem) | Moved(elem: Elem) | WrongType

  /** waiting is db->blocking_keys, ready and readySet are server.ready_keys and db->ready_keys, and
      log lists every reply sent while serving. */
  datatype State = State(
    db: map<Key, Value>,
    clients: map<Id, Client>,
    waiting: map<Key, seq<Id>>,
    ready: seq<Key>,
    readySet: set<Key>,
    unblocked: seq<Id>,
    total: int,
    byType: map<Btype, int>,
    log: seq<(Id, Reply)>)

  predicate OnData(t: Btype) { t.OnList? || t.OnZSet? || t.OnStream? }

  // ---------- blocking ----------

  function Enqueue(w: map<Key, seq<Id>>, k: Key, c: Id): map<Key, seq<Id>> {
    w[k := (if k in w then w[k] else []) + [c]]
  }

  /** The loop of blockForKeys: a key given twice counts once. */
  function EnqueueAll(w: map<Key, seq<Id>>, have: set<Key>, ks: seq<Key>, c: Id): map<Key, seq<Id>>
    decreases |ks|
  {
    if ks == [] then w
    else if ks[0] in have then EnqueueAll(w, have, ks[1..], c)
    else EnqueueAll(Enqueue(w, ks[0], c), have + {ks[0]}, ks[1..], c)
  }

  function Elements(ks: seq<Key>): set<Key> { set i | 0 <= i < |ks| :: ks[i] }

  function Bumped(m: map<Btype, int>, t: Btype, n: int): map<Btype, int> {
    m[t := (if t in m then m[t] else 0) + n]
  }

  /** blockClient. */
  function Blocked(s: State, c: Id, t: Btype): State
    requires c in s.clients
  {
    s.(clients := s.clients[c := s.clients[c].(blocked := true, btype := t)],
       total := s.total + 1,
       byType := Bumped(s.byType, t, 1))
  }

  /** blockForKeys. */
  function BlockedForKeys(s: State, c: Id, t: Btype, ks: seq<Key>, target: Option<Key>, front: bool): State
    requires c in s.clients
  {
    var cl := s.clients[c];
    Blocked(s.(waiting := EnqueueAll(s.waiting, cl.keys, ks, c),
               clients := s.clients[c := cl.(keys := cl.keys + Elements(ks), target := target, front := front)]), c, t)
  }

  // ---------- unblocking ----------

  /** listDelNode of the node found by listSearchKey. */
  function Without(q: seq<Id>, c: Id): seq<Id> {
    if q == [] then [] else if q[0] == c then q[1..] else [q[0]] + Without(q[1..], c)
  }

  function Dequeue(w: map<Key, seq<Id>>, k: Key, c: Id): map<Key, seq<Id>>
    requires k in w
  {
    var q := Without(w[k], c);
    if q == [] then w - {k} else w[k := q]
  }

  /** The client taken out of the queues of all its keys; emptied queues are freed. */
  function DequeueAll(w: map<Key, seq<Id>>, ks: set<Key>, c: Id): map<Key, seq<Id>> {
    map k | k in w && (k in ks ==> Without(w[k], c) != []) :: if k in ks then Without(w[k], c) else w[k]
  }

  /** queueClientForReprocessing. */
  function Requeued(s: State, c: Id): State
    requires c in s.clients
  {
    if s.clients[c].queued then s
    else s.(clients := s.clients[c := s.clients[c].(queued := true)], unblocked := s.unblocked + [c])
  }

  const IDLE := Client(false, NotBlocked, false, {}, None, false)

  /** unblockClient. */
  function Unblocked(s: State, c: Id): State
    requires c in s.clients
  {
    var cl := s.clients[c];
    Requeued(s.(waiting := if OnData(cl.btype) then DequeueAll(s.waiting, cl.keys, c) else s.waiting,
                clients := s.clients[c := IDLE.(queued := cl.queued)],
                total := s.total - 1,
                byType := Bumped(s.byType, cl.btype, -1)), c)
  }

  // ---------- ready keys ----------

  /** signalKeyAsReady. */
  function Signalled(s: State, k: Key): State {
    if k !in s.waiting || k in s.readySet then s
    else s.(ready := s.ready + [k], readySet := s.readySet + {k})
  }

  /** dbAdd: a new list or sorted set wakes the clients waiting for the key. */
  function Added(s: State, k: Key, v: Value): State {
    var s' := s.(db := s.db[k := v]);
    if v.Other? then s' else Signalled(s', k)
  }

  // ---------- serving ----------

  function Popped1(xs: seq<Elem>, front: bool): (r: (Elem, seq<Elem>))
    requires xs != []
  {
    if front then (xs[0], xs[1..]) else (xs[|xs| - 1], xs[..|xs| - 1])
  }

  function Pushed1(xs: seq<Elem>, x: Elem, front: bool): seq<Elem> { if front then [x] + xs else xs + [x] }

  function Logged(s: State, c: Id, r: Reply): State { s.(log := s.log + [(c, r)]) }

  /** rpoplpushHandlePush. */
  function PushedTo(s: State, dst: Key, x: Elem): State
    requires dst in s.db ==> s.db[dst].List?
  {
    var s' := if dst in s.db then s else Added(s, dst, List([]));
    s'.(db := s'.db[dst := List([x] + s'.db[dst].xs)])
  }

  /** One list client at the head of the queue of k: the element is popped, the client unblocked and
      served; a BRPOPLPUSH whose target has the wrong type puts the element back. */
  function ServedList(s: State, k: Key, c: Id): State
    requires c in s.clients && k in s.db && s.db[k].List? && s.db[k].xs != []
  {
    var cl := s.clients[c];
    var (x, rest) := Popped1(s.db[k].xs, cl.front);
    var s1 := Unblocked(s.(db := s.db[k := List(rest)]), c);
    if cl.target.None? then Logged(s1, c, Popped(k, x))
    else
      var dst := cl.target.value;
      if dst in s1.db && !s1.db[dst].List? then
        Logged(s1.(db := s1.db[k := List(Pushed1(rest, x, cl.front))]), c, WrongType)
      else Logged(PushedTo(s1, dst, x), c, Moved(x))
  }

  function Rotated(s: State, k: Key): State
    requires k in s.waiting && s.waiting[k] != []
  {
    s.(waiting := s.waiting[k := s.waiting[k][1..] + [s.waiting[k][0]]])
  }

  /** There is a client at the head of the queue of k. */
  predicate HasHead(s: State, k: Key) {
    k in s.waiting && s.waiting[k] != [] && s.waiting[k][0] in s.clients
  }

  /** The loop over n clients waiting for the list k. */
  function ServeList(s: State, k: Key, n: nat): State
    decreases n
  {
    if n == 0 || !HasHead(s, k) || k !in s.db || !s.db[k].List? then s
    else
      var c := s.waiting[k][0];
      if !s.clients[c].btype.OnList? then ServeList(Rotated(s, k), k, n - 1)
      else if s.db[k].xs == [] then s
      else ServeList(ServedList(s, k, c), k, n - 1)
  }

  /** One sorted set client: genericZpopCommand pops one element and deletes an emptied key. */
  function ServedZSet(s: State, k: Key, c: Id): State
    requires c in s.clients && k in s.db && s.db[k].ZSet? && s.db[k].zs != []
  {
    var (x, rest) := Popped1(s.db[k].zs, s.clients[c].front);
    var s1 := Unblocked(s, c);
    Logged(s1.(db := if rest == [] then s1.db - {k} else s1.db[k := ZSet(rest)]), c, Popped(k, x))
  }

  function ServeZSet(s: State, k: Key, n: nat): State
    decreases n
  {
    if n == 0 || !HasHead(s, k) || k !in s.db || !s.db[k].ZSet? || s.db[k].zs == [] then s
    else
      var c := s.waiting[k][0];
      if !s.clients[c].btype.OnZSet? then ServeZSet(Rotated(s, k), k, n - 1)
      else ServeZSet(ServedZSet(s, k, c), k, n - 1)
  }

  function QueueLength(s: State, k: Key): nat { if k in s.waiting then |s.waiting[k]| else 0 }

  /** One key of the ready list. */
  function HandleKey(s: State, k: Key): State {
    var s0 := s.(readySet := s.readySet - {k});
    if k !in s.db || s.db[k].Other? then s0
    else if s.db[k].ZSet? then ServeZSet(s0, k, QueueLength(s, k))
    else
      var s1 := ServeList(s0, k, QueueLength(s, k));
      if k in s1.db && s1.db[k] == List([]) then s1.(db := s1.db - {k}) else s1
  }

  ghost function Waiters(s: State): set<Id> { set c | c in s.clients && s.clients[c].btype != NotBlocked }

  /** The key list l being worked on, then whatever has become ready meanwhile, until nothing is
      left.  Every new ready key costs a blocked client. */
  ghost function Handle(s: State, l: seq<Key>): State
    decreases |Waiters(s)|, |l| + |s.ready|, |s.ready|
  {
    if l != [] then
      HandleKeyMeasure(s, l[0]);
      Handle(HandleKey(s, l[0]), l[1..])
    else if s.ready != [] then Handle(s.(ready := []), s.ready)
    else s
  }

  /** Nobody unblocked and nothing signalled, or fewer blocked clients than before. */
  ghost predicate Spent(s: State, t: State) {
    Waiters(t) < Waiters(s) || (Waiters(t) == Waiters(s) && t.ready == s.ready)
  }

  /** Serving a list client leaves the other clients alone and frees this one. */
  lemma ServedListClients(s: State, k: Key, c: Id)
    requires c in s.clients && k in s.db && s.db[k].List? && s.db[k].xs != []
    ensures ServedList(s, k, c).clients == s.clients[c := IDLE.(queued := true)]
  {
  }

  lemma FreedClient(s: State, t: State, c: Id)
    requires c in s.clients && s.clients[c].btype != NotBlocked && t.clients == s.clients[c := IDLE.(queued := true)]
    ensures Waiters(t) < Waiters(s)
  {
    assert c in Waiters(s) && c !in Waiters(t);
  }

  lemma {:induction false} ServeListSpends(s: State, k: Key, n: nat)
    ensures Spent(s, ServeList(s, k, n))
    decreases n
  {
    hide ServedList;
    if n == 0 || !HasHead(s, k) || k !in s.db || !s.db[k].List? {
    } else {
      var c := s.waiting[k][0];
      if !s.clients[c].btype.OnList? {
        assert Waiters(Rotated(s, k)) == Waiters(s);
        ServeListSpends(Rotated(s, k), k, n - 1);
      } else if s.db[k].xs != [] {
        ServedListClients(s, k, c);
        FreedClient(s, ServedList(s, k, c), c);
        ServeListSpends(ServedList(s, k, c), k, n - 1);
      }
    }
  }

  lemma {:induction false} ServeZSetSpends(s: State, k: Key, n: nat)
    ensures Spent(s, ServeZSet(s, k, n))
    decreases n
  {
    if n == 0 || !HasHead(s, k) || k !in s.db || !s.db[k].ZSet? || s.db[k].zs == [] {
    } else {
      var c := s.waiting[k][0];
      if !s.clients[c].btype.OnZSet? {
        assert Waiters(Rotated(s, k)) == Waiters(s);
        ServeZSetSpends(Rotated(s, k), k, n - 1);
      } else {
        FreedClient(s, ServedZSet(s, k, c), c);
        ServeZSetSpends(ServedZSet(s, k, c), k, n - 1);
      }
    }
  }

  lemma HandleKeyMeasure(s: State, k: Key)
    ensures Spent(s, HandleKey(s, k))
    ensures var t := HandleKey(s, k);
            |Waiters(t)| < |Waiters(s)| || (|Waiters(t)| == |Waiters(s)| && t.ready == s.ready)
  {
    hide ServeList, ServeZSet;
    var s0 := s.(readySet := s.readySet - {k});
    assert Waiters(s0) == Waiters(s);
    ServeListSpends(s0, k, QueueLength(s, k));
    ServeZSetSpends(s0, k, QueueLength(s, k));
    var s1 := ServeList(s0, k, QueueLength(s, k));
    assert Waiters(s1.(db := s1.db - {k})) == Waiters(s1);
    var t := HandleKey(s, k);
    if Waiters(t) < Waiters(s) { SmallerSet(Waiters(t), Waiters(s)); }
  }
}
