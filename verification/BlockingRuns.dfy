/** Runs of clients connecting, blocking, timing out and leaving, of keys being written, and of
    serving: the index stays exact and nobody misses a wakeup. */
module BlockingRuns {
  import opened Common
  import opened Blocking
  import opened BlockingIndex
  import opened BlockingServe

  datatype Op =
    | Connect(c: Id)
    | Free(c: Id)
    | Block(c: Id, t: Btype, ks: seq<Key>, target: Option<Key>, front: bool)
    | BlockElsewhere(c: Id, t: Btype)
    | Unblock(c: Id)
    | Reprocess
    | Add(k: Key, v: Value)
    | Update(k: Key, v: Value)
    | Overwrite(k: Key, v: Value)
    | Remove(k: Key)
    | Serve

  predicate NonEmpty(v: Value) { v != List([]) && v != ZSet([]) }

  predicate SameKind(v: Value, w: Value) { v.List? == w.List? && v.ZSet? == w.ZSet? }

  /** A command blocks only if no key it names holds what it wants.  Add makes a key and wakes the
      clients waiting for it; Update changes a value in place; Overwrite puts another value under an
      existing key, and wakes nobody. */
  ghost predicate Enabled(s: State, op: Op) {
    match op
    case Connect(c) => c !in s.clients
    case Free(c) => c in s.clients
    case Block(c, t, ks, _, _) =>
      && c in s.clients && !s.clients[c].blocked && OnData(t) && ks != []
      && forall k | k in ks && k in s.db :: !Wants(t, s.db[k])
    case BlockElsewhere(c, t) => c in s.clients && !s.clients[c].blocked && (t.OnWait? || t.OnModule?)
    case Unblock(c) => c in s.clients && s.clients[c].blocked
    case Reprocess => s.unblocked != []
    case Add(k, v) => k !in s.db && NonEmpty(v)
    case Update(k, v) => k in s.db && NonEmpty(v) && SameKind(s.db[k], v)
    case Overwrite(k, v) => k in s.db && NonEmpty(v)
    case Remove(k) => true
    case Serve => true
  }

  ghost predicate NobodyWants(s: State, k: Key, v: Value) {
    k in s.waiting ==> forall c | c in s.waiting[k] && c in s.clients :: !Wants(s.clients[c].btype, v)
  }

  /** The overwrite turns a key that is not about to be served into another kind of value, and somebody
      in its queue wants that kind. */
  ghost predicate Strands(s: State, op: Op) {
    && op.Overwrite? && op.k in s.db && op.k !in s.readySet
    && !SameKind(s.db[op.k], op.v)
    && !NobodyWants(s, op.k, op.v)
  }

  /** freeClient, once the client is unblocked. */
  function Forgotten(s: State, c: Id): State {
    s.(unblocked := Without(s.unblocked, c), clients := s.clients - {c})
  }

  function Freed(s: State, c: Id): State
    requires c in s.clients
  {
    Forgotten(if s.clients[c].blocked then Unblocked(s, c) else s, c)
  }

  /** One turn of processUnblockedClients. */
  function Reprocessed(s: State): State
    requires s.unblocked != []
  {
    var c := s.unblocked[0];
    s.(unblocked := s.unblocked[1..],
       clients := if c in s.clients then s.clients[c := s.clients[c].(queued := false)] else s.clients)
  }

  ghost function Apply(s: State, op: Op): State
    requires Enabled(s, op)
  {
    match op
    case Connect(c) => s.(clients := s.clients[c := IDLE])
    case Free(c) => Freed(s, c)
    case Block(c, t, ks, target, front) => BlockedForKeys(s, c, t, ks, target, front)
    case BlockElsewhere(c, t) => Blocked(s, c, t)
    case Unblock(c) => Unblocked(s, c)
    case Reprocess => Reprocessed(s)
    case Add(k, v) => Added(s, k, v)
    case Update(k, v) => s.(db := s.db[k := v])
    case Overwrite(k, v) => s.(db := s.db[k := v])
    case Remove(k) => s.(db := s.db - {k})
    case Serve => Handle(s, [])
  }

  ghost predicate Good(s: State) { Inv(s, []) && AllQuiet(s, {}) && NoEmpty(s, {}) }

  // ---------- clients come and go ----------

  lemma ConnectIsGood(s: State, c: Id)
    requires Good(s) && c !in s.clients
    ensures Good(s.(clients := s.clients[c := IDLE]))
  {
    hide NoDup;
    var r := s.(clients := s.clients[c := IDLE]);
    forall k | k in r.waiting ensures QueueOk(r, k) { assert QueueOk(s, k); }
    forall d | d in r.clients ensures ClientOk(r, d) { if d != c { assert ClientOk(s, d); } }
    assert Waiters(r) == Waiters(s);
    assert forall t: Btype | t != NotBlocked :: OfType(r, t) == OfType(s, t);
    forall k | k in r.db && k !in r.readySet ensures Quiet(r, k) {
      assert Quiet(s, k);
      if k in s.waiting { assert QueueOk(s, k); }
    }
  }

  lemma ForgetKeepsIndex(s: State, c: Id)
    requires Index(s) && c in s.clients && !s.clients[c].blocked
    ensures Index(Forgotten(s, c))
  {
    hide NoDup, Without;
    var r := Forgotten(s, c);
    assert ClientOk(s, c);
    forall k | k in r.waiting ensures QueueOk(r, k) { assert QueueOk(s, k); }
    forall d | d in r.clients ensures ClientOk(r, d) { assert ClientOk(s, d); }
  }

  lemma ForgetKeepsReprocess(s: State, c: Id)
    requires ReprocessOk(s)
    ensures ReprocessOk(Forgotten(s, c))
  {
    hide NoDup, Without;
    WithoutMeans(s.unblocked, c);
  }

  /** An idle client in no queue can be forgotten. */
  lemma ForgetIsGood(s: State, c: Id)
    requires Good(s) && c in s.clients && !s.clients[c].blocked
    ensures Good(Forgotten(s, c))
  {
    hide NoDup, Without, Index, ReprocessOk;
    var r := Forgotten(s, c);
    NotBlockedMeans(s, c);
    ForgetKeepsIndex(s, c);
    ForgetKeepsReprocess(s, c);
    assert Waiters(r) == Waiters(s);
    assert forall t: Btype | t != NotBlocked :: OfType(r, t) == OfType(s, t);
    forall k | k in r.db && k !in r.readySet ensures Quiet(r, k) { assert Quiet(s, k); }
  }

  lemma UnblockIsGood(s: State, c: Id)
    requires Good(s) && c in s.clients && s.clients[c].blocked
    ensures Good(Unblocked(s, c))
  {
    hide Inv, AllQuiet, DequeueAll;
    UnblockKeepsInv(s, c, []);
    UnblockKeepsAllQuiet(s, c, {}) by { assert Index(s) by { InvIndex(s); } }
  }

  lemma InvIndex(s: State)
    requires Inv(s, [])
    ensures Index(s)
  {
  }

  lemma FreeIsGood(s: State, c: Id)
    requires Good(s) && c in s.clients
    ensures Good(Freed(s, c))
  {
    hide Good;
    if s.clients[c].blocked { UnblockIsGood(s, c); }
    ForgetIsGood(if s.clients[c].blocked then Unblocked(s, c) else s, c);
  }

  lemma ReprocessIsGood(s: State)
    requires Good(s) && s.unblocked != []
    ensures Good(Reprocessed(s))
  {
    hide Index, ReprocessOk, NoDup;
    var r := Reprocessed(s);
    ReprocessKeepsIndex(s);
    ReprocessKeepsReprocess(s);
    assert Waiters(r) == Waiters(s);
    assert forall t: Btype :: OfType(r, t) == OfType(s, t);
    forall k | k in r.db && k !in r.readySet ensures Quiet(r, k) { assert Quiet(s, k); }
  }

  lemma ReprocessKeepsIndex(s: State)
    requires Index(s) && s.unblocked != []
    ensures Index(Reprocessed(s))
  {
    hide NoDup;
    var r := Reprocessed(s);
    forall k | k in r.waiting ensures QueueOk(r, k) { assert QueueOk(s, k); }
    forall d | d in r.clients ensures ClientOk(r, d) { assert ClientOk(s, d); }
  }

  lemma ReprocessKeepsReprocess(s: State)
    requires ReprocessOk(s) && s.unblocked != []
    ensures ReprocessOk(Reprocessed(s))
  {
    hide NoDup;
    TailNoDup(s.unblocked);
    assert s.unblocked == [s.unblocked[0]] + s.unblocked[1..];
  }

  // ---------- blocking ----------

  lemma BlockIsGood(s: State, op: Op)
    requires Good(s) && op.Block? && Enabled(s, op)
    ensures Good(Apply(s, op))
  {
    hide NoDup, Counters, ReprocessOk, ReadyOk, EnqueueAll;
    var Block(c, t, ks, target, front) := op;
    var r := Apply(s, op);
    BlockKeepsInv(s, c, t, ks, target, front);
    assert ClientOk(s, c);
    EnqueueAllMeans(s.waiting, {}, ks, c);
    forall k | k in r.db && k !in r.readySet ensures Quiet(r, k) { BlockKeepsQuiet(s, op, k); }
  }

  lemma BlockKeepsQuiet(s: State, op: Op, k: Key)
    requires Index(s) && op.Block? && Enabled(s, op) && Quiet(s, k)
    ensures Quiet(Apply(s, op), k)
  {
    hide NoDup, EnqueueAll;
    var Block(c, t, ks, target, front) := op;
    assert ClientOk(s, c);
    EnqueueAllMeans(s.waiting, {}, ks, c);
    if k in s.waiting { assert QueueOk(s, k); }
  }

  lemma BlockElsewhereKeepsIndex(s: State, c: Id, t: Btype)
    requires Index(s) && c in s.clients && !s.clients[c].blocked && (t.OnWait? || t.OnModule?)
    ensures Index(Blocked(s, c, t))
  {
    hide NoDup, Bumped;
    var r := Blocked(s, c, t);
    assert ClientOk(s, c);
    forall k | k in r.waiting ensures QueueOk(r, k) { assert QueueOk(s, k); }
    forall d | d in r.clients ensures ClientOk(r, d) { assert ClientOk(s, d); }
  }

  lemma BlockElsewhereKeepsQuiet(s: State, c: Id, t: Btype)
    requires AllQuiet(s, {}) && c in s.clients && (t.OnWait? || t.OnModule?)
    ensures AllQuiet(Blocked(s, c, t), {})
  {
    hide Bumped;
    var r := Blocked(s, c, t);
    forall k | k in r.db && k !in r.readySet ensures Quiet(r, k) { assert Quiet(s, k); }
  }

  lemma BlockElsewhereIsGood(s: State, c: Id, t: Btype)
    requires Good(s) && c in s.clients && !s.clients[c].blocked && (t.OnWait? || t.OnModule?)
    ensures Good(Blocked(s, c, t))
  {
    hide NoDup, Index, AllQuiet, Waiters, OfType;
    BlockElsewhereKeepsIndex(s, c, t);
    BlockElsewhereKeepsQuiet(s, c, t);
    NotBlockedMeans(s, c);
    CountChange(s, Blocked(s, c, t), c);
  }

  // ---------- keys ----------

  lemma AddIsGood(s: State, k: Key, v: Value)
    requires Good(s) && k !in s.db && NonEmpty(v)
    ensures Good(Added(s, k, v))
  {
    hide Inv, AllQuiet;
    AddKeepsQuiet(s, k, v, {});
    var s1 := s.(db := s.db[k := v]);
    SameIndexKeepsInv(s, s1, []);
    SignalKeepsInv(s1, k, []);
  }

  lemma WriteIsGood(s: State, db: map<Key, Value>, k: Key)
    requires Good(s) && NoEmpty(s.(db := db), {})
    requires forall j | j in db && j != k :: j in s.db && db[j] == s.db[j]
    requires k in db ==> k in s.readySet || NobodyWants(s, k, db[k])
    ensures Good(s.(db := db))
  {
    hide Inv;
    var r := s.(db := db);
    SameIndexKeepsInv(s, r, []);
    forall j | j in r.db && j !in r.readySet ensures Quiet(r, j) { if j != k { assert Quiet(s, j); } }
  }

  /** Writing over a key keeps the promise exactly unless it strands a client; with a value of the same
      kind it always does. */
  lemma OverwriteKeepsGood(s: State, op: Op)
    requires Good(s) && op.Overwrite? && Enabled(s, op)
    ensures Good(Apply(s, op)) <==> !Strands(s, op)
  {
    hide Inv, NoEmpty;
    var k, v := op.k, op.v;
    if Strands(s, op) {
      assert !Quiet(s.(db := s.db[k := v]), k);
    } else if SameKind(s.db[k], v) {
      UpdateIsGood(s, k, v);
    } else {
      OverwrittenNoEmpty(s, k, v);
      WriteIsGood(s, s.db[k := v], k);
    }
  }

  lemma OverwrittenNoEmpty(s: State, k: Key, v: Value)
    requires NoEmpty(s, {}) && NonEmpty(v)
    ensures NoEmpty(s.(db := s.db[k := v]), {})
  {
  }

  // ---------- runs ----------

  lemma ServeIsGood(s: State)
    requires Good(s)
    ensures Good(Handle(s, [])) && Handle(s, []).ready == []
  {
    hide Inv, AllQuiet, NoEmpty, Handle;
    HandleKeepsInv(s, []);
    HandleQuiets(s, []);
  }

  lemma StepIsGood(s: State, op: Op)
    requires Good(s) && Enabled(s, op) && !Strands(s, op)
    ensures Good(Apply(s, op))
  {
    hide Inv, AllQuiet, Strands, Handle, Freed, Reprocessed, BlockedForKeys, Blocked, Unblocked, Added;
    match op {
      case Connect(c) => ConnectIsGood(s, c);
      case Free(c) => FreeIsGood(s, c);
      case Block(_, _, _, _, _) => BlockIsGood(s, op);
      case BlockElsewhere(c, t) => BlockElsewhereIsGood(s, c, t);
      case Unblock(c) => UnblockIsGood(s, c);
      case Reprocess => ReprocessIsGood(s);
      case Add(k, v) => AddIsGood(s, k, v);
      case Update(k, v) => UpdateIsGood(s, k, v);
      case Overwrite(_, _) => OverwriteKeepsGood(s, op);
      case Remove(k) => WriteIsGood(s, s.db - {k}, k);
      case Serve => ServeIsGood(s);
    }
  }

  lemma UpdateIsGood(s: State, k: Key, v: Value)
    requires Good(s) && k in s.db && NonEmpty(v) && SameKind(s.db[k], v)
    ensures Good(s.(db := s.db[k := v]))
  {
    hide Inv;
    var r := s.(db := s.db[k := v]);
    SameIndexKeepsInv(s, r, []);
    SameKindKeepsQuiet(s, r, k, {});
  }

  const INITIAL := State(map[], map[], map[], [], {}, [], 0, map[], [])

  lemma InitialIsGood()
    ensures Good(INITIAL)
  {
    assert Waiters(INITIAL) == {};
    forall t: Btype ensures Count(INITIAL, t) == |OfType(INITIAL, t)| { assert OfType(INITIAL, t) == {}; }
  }

  ghost predicate IsRun(ss: seq<State>, ops: seq<Op>) {
    && |ss| == |ops| + 1 && ss[0] == INITIAL
    && forall i | 0 <= i < |ops| :: Enabled(ss[i], ops[i]) && ss[i + 1] == Apply(ss[i], ops[i])
  }

  ghost predicate NoneStrands(ss: seq<State>, ops: seq<Op>)
    requires |ss| == |ops| + 1
  {
    forall i | 0 <= i < |ops| :: !Strands(ss[i], ops[i])
  }

  /** Every state of such a run is good. */
  lemma {:induction false} RunIsGood(ss: seq<State>, ops: seq<Op>, i: nat)
    requires IsRun(ss, ops) && NoneStrands(ss, ops) && i < |ss|
    ensures Good(ss[i])
  {
    hide Good, Enabled, Apply, Strands;
    if i == 0 {
      InitialIsGood();
    } else {
      RunIsGood(ss, ops, i - 1);
      StepIsGood(ss[i - 1], ops[i - 1]);
    }
  }

  /** No client is blocked on a key that holds what it waits for. */
  ghost predicate Awake(s: State) {
    forall c, k | c in s.clients && k in s.clients[c].keys && k in s.db :: !Wants(s.clients[c].btype, s.db[k])
  }

  lemma GoodIsAwake(s: State)
    requires Good(s) && s.ready == []
    ensures Awake(s)
  {
    assert s.readySet == {};
    forall c, k | c in s.clients && k in s.clients[c].keys && k in s.db ensures !Wants(s.clients[c].btype, s.db[k]) {
      assert ClientOk(s, c);
      assert Quiet(s, k);
    }
  }

  /** No wakeup is lost: if no overwrite strands a client, then whenever no key is waiting to be served,
      and so after every command, nobody is blocked on a key that holds what they wait for. */
  lemma NoLostWakeup(ss: seq<State>, ops: seq<Op>, i: nat)
    requires IsRun(ss, ops) && NoneStrands(ss, ops) && i < |ss|
    requires ss[i].ready == [] || (i > 0 && ops[i - 1].Serve?)
    ensures Awake(ss[i])
  {
    hide Apply, Good, Strands, Awake;
    RunIsGood(ss, ops, i);
    if ss[i].ready != [] {
      RunIsGood(ss, ops, i - 1);
      ServeIsGood(ss[i - 1]);
      ServeApplied(ss[i - 1]);
    }
    GoodIsAwake(ss[i]);
  }

  /** An overwrite between two commands, served as every command is, leaves somebody blocked on a key
      that holds what they wait for if and only if it strands a client. */
  lemma OverwriteExactly(ss: seq<State>, ops: seq<Op>, i: nat, op: Op)
    requires IsRun(ss, ops) && NoneStrands(ss, ops) && i < |ss| && ss[i].ready == []
    requires op.Overwrite? && Enabled(ss[i], op)
    ensures Awake(Apply(Apply(ss[i], op), Serve)) <==> !Strands(ss[i], op)
  {
    hide Good;
    var s := ss[i];
    var t := Apply(s, op);
    RunIsGood(ss, ops, i);
    ServeApplied(t);
    ServeNothing(t);
    OverwriteKeepsGood(s, op);
    if Strands(s, op) { StrandedClient(s, op); } else { GoodIsAwake(t); }
  }

  lemma ServeNothing(s: State)
    requires s.ready == []
    ensures Handle(s, []) == s
  {
  }

  lemma StrandedClient(s: State, op: Op)
    requires Good(s) && Enabled(s, op) && Strands(s, op)
    ensures !Awake(Apply(s, op))
  {
    var k := op.k;
    var c :| c in s.waiting[k] && c in s.clients && Wants(s.clients[c].btype, op.v);
    assert QueueOk(s, k);
    var t := Apply(s, op);
    assert c in t.clients && k in t.clients[c].keys && k in t.db && Wants(t.clients[c].btype, t.db[k]);
  }

  /** It happens: a client waits for a list, the key becomes a string, and SORT with STORE then makes it
      a list.  The client stays blocked. */
  lemma OverwriteCanStrand(k: Key, x: Elem) returns (ss: seq<State>, ops: seq<Op>)
    ensures IsRun(ss, ops) && |ops| == 5 && ops[4] == Serve && ss[5].ready == []
    ensures k in ss[5].db && ss[5].db[k] == List([x])
    ensures 1 in ss[5].clients && ss[5].clients[1].btype == OnList && k in ss[5].clients[1].keys
    ensures !Awake(ss[5])
  {
    hide Handle, BlockedForKeys;
    ops := [Connect(1), Block(1, OnList, [k], None, true), Add(k, Other), Overwrite(k, List([x])), Serve];
    var s1 := Apply(INITIAL, ops[0]);
    assert Enabled(s1, ops[1]);
    var s2 := Apply(s1, ops[1]);
    OneBlocks(s1, k);
    var s3 := Apply(s2, ops[2]);
    var s4 := Apply(s3, ops[3]);
    ServeNothing(s4);
    ss := [INITIAL, s1, s2, s3, s4, s4];
    assert Wants(s4.clients[1].btype, s4.db[k]);
  }

  lemma OneBlocks(s: State, k: Key)
    requires s == INITIAL.(clients := map[1 := IDLE])
    ensures var r := BlockedForKeys(s, 1, OnList, [k], None, true);
            && r.db == map[] && r.ready == [] && r.readySet == {}
            && 1 in r.clients && r.clients[1].btype == OnList && k in r.clients[1].keys
  {
    assert [k][0] == k;
    assert k in Elements([k]);
  }

  lemma ServeApplied(s: State)
    ensures Apply(s, Serve) == Handle(s, [])
  {
  }
}
