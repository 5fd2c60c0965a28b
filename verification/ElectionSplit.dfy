/** The bound in `ElectionSafety.OneWinnerPerEpoch` is exact for every size of the electorate: with one
    stale ack more, some run has two winners of the same epoch.

    Scheduling an election clears the ack counter, but the epoch that acks are compared with is
    only taken when the votes are requested.  An ack of the abandoned election that arrives in
    between is therefore counted for the next one.  Nodes 0 to n - 1 are the masters and the whole
    electorate; nodes n and n + 1 are replicas of node 0, each in a manual failover. */
module ElectionSplit {
  import opened Common
  import opened ClusterState
  import opened ClusterProtocol
  import opened ElectionSafety

  // ---------- the nodes ----------

  function Idle0(): Auth { Auth(0, 0, false, 0, 0) }

  function Range(lo: nat, hi: nat): (ids: set<NodeId>)
    ensures forall id :: id in ids <==> lo <= id < hi
    decreases hi - lo
  {
    if lo < hi then {lo} + Range(lo + 1, hi) else {}
  }

  function All(n: nat): set<NodeId> { Range(0, n + 2) }

  function Known(n: nat, voted: int): map<NodeId, Peer> {
    map id | id in All(n) ::
      Peer(0, if id < n then Master else Replica(Some(0)), false, if id == 0 then voted else 0)
  }

  /** Master j serves slot j. */
  function View(n: nat, id: NodeId, epoch: nat, lastVote: nat, voted: int, auth: Auth): Node {
    Node(id, epoch, lastVote, Known(n, voted), map j | j in Range(0, n) :: j, {}, n, auth)
  }

  function At(now: int): Env { Env(now, 1000, true, true, false, false, 500, 0) }

  function Hdr(n: nat, src: NodeId, dst: NodeId, epoch: nat, force: bool): Header {
    Header(src, dst, epoch, 0, if src < n then None else Some(0), {if src < n then src else 0}, force)
  }

  lemma Headers(n: nat, id: NodeId, epoch: nat, lastVote: nat, voted: int, auth: Auth, dst: NodeId, force: bool)
    requires 0 < n && id < n + 2
    ensures BuildHeader(View(n, id, epoch, lastVote, voted, auth), dst, force) == Hdr(n, id, dst, epoch, force)
  {
    var v := View(n, id, epoch, lastVote, voted, auth);
    var master := if id < n then id else 0;
    assert SlotsOf(v, master) == {master};
  }

  lemma SeesOnlyTheEpoch(n: nat, id: NodeId, epoch: nat, lastVote: nat, voted: int, auth: Auth, h: Header)
    requires h.src < n + 2 && h.configEpoch == 0
    ensures SeeEpochs(View(n, id, epoch, lastVote, voted, auth), h)
            == View(n, id, Max(epoch, h.currentEpoch), lastVote, voted, auth)
  {
    var p := Known(n, voted);
    assert p[h.src := p[h.src].(configEpoch := 0)] == p;
  }

  lemma MasterServes(n: nat, id: NodeId, m: NodeId, epoch: nat, lastVote: nat, voted: int, auth: Auth)
    requires m < n
    ensures Serves(View(n, id, epoch, lastVote, voted, auth), m)
  {
    assert View(n, id, epoch, lastVote, voted, auth).owner[m] == m;
  }

  // ---------- what each node does ----------

  lemma NodeSchedules(n: nat, who: NodeId, epoch: nat, auth: Auth, now: int)
    requires 0 < n <= who < n + 2 && 4000 < now - auth.time
    ensures HandleFailover(View(n, who, epoch, 0, 0, auth), At(now))
            == (View(n, who, epoch, 0, 0, Auth(now, 0, false, 0, auth.epoch)), Scheduled)
  {
    MasterServes(n, who, 0, epoch, 0, 0, auth);
  }

  lemma NodeRequests(n: nat, who: NodeId, epoch: nat, count: nat, authEpoch: nat, now: int)
    requires 0 < n <= who < n + 2
    ensures HandleFailover(View(n, who, epoch, 0, 0, Auth(now, count, false, 0, authEpoch)), At(now))
            == (View(n, who, epoch + 1, 0, 0, Auth(now, count, true, 0, epoch + 1)), Requested)
  {
    MasterServes(n, who, 0, epoch, 0, 0, Auth(now, count, false, 0, authEpoch));
  }

  lemma NodeWins(n: nat, who: NodeId, epoch: nat, count: nat, now: int)
    requires 0 < n <= who < n + 2 && Quorum(n) <= count
    ensures var (v, action) := HandleFailover(View(n, who, epoch, 0, 0, Auth(now, count, true, 0, epoch)), At(now));
            action == Won && v.auth.epoch == epoch
  {
    MasterServes(n, who, 0, epoch, 0, 0, Auth(now, count, true, 0, epoch));
  }

  /** A master that has not voted in the epoch, nor lately for a replica of node 0, votes. */
  lemma NodeVotes(n: nat, id: NodeId, replica: NodeId, epoch: nat, last: nat, voted: int, asked: nat, now: int)
    requires id < n <= replica < n + 2 && epoch <= asked && last < asked && 2000 <= now - voted
    ensures ReceiveRequest(View(n, id, epoch, last, voted, Idle0()), Hdr(n, replica, id, asked, true), now, 1000)
            == (View(n, id, asked, asked, now, Idle0()), true)
  {
    var h := Hdr(n, replica, id, asked, true);
    SeesOnlyTheEpoch(n, id, epoch, last, voted, Idle0(), h);
    MasterServes(n, id, id, asked, last, voted, Idle0());
    var v := View(n, id, asked, last, voted, Idle0());
    assert GrantsVote(v, h, now, 1000);
    assert v.peers[0 := v.peers[0].(votedTime := now)] == Known(n, now);
  }

  lemma NodeCounts(n: nat, id: NodeId, voter: NodeId, epoch: nat, auth: Auth, ack: nat)
    requires voter < n <= id < n + 2 && auth.epoch <= ack <= epoch
    ensures var h, v := Hdr(n, voter, id, ack, false), View(n, id, epoch, 0, 0, auth);
            && CountsAck(SeeEpochs(v, h), h)
            && ReceiveAck(v, h) == View(n, id, epoch, 0, 0, auth.(count := auth.count + 1))
  {
    SeesOnlyTheEpoch(n, id, epoch, 0, 0, auth, Hdr(n, voter, id, ack, false));
    MasterServes(n, id, voter, epoch, 0, 0, auth);
  }

  // ---------- the steps ----------

  ghost predicate Reachable(s: System) {
    exists run, steps :: IsRun(run, steps) && run[|steps|] == s
  }

  lemma ReachNext(s: System, step: Step)
    requires Reachable(s) && WellFormed(s) && Enabled(s, step)
    ensures Reachable(Next(s, step)) && WellFormed(Next(s, step))
  {
    hide Next, Enabled, WellFormed, Init, Inv;
    var run, steps :| IsRun(run, steps) && run[|steps|] == s;
    var s' := Next(s, step);
    var run', steps' := run + [s'], steps + [step];
    forall i | 0 <= i < |steps'| ensures IsStep(run'[i], steps'[i], run'[i + 1]) {
      if i < |steps| { assert IsStep(run[i], steps[i], run[i + 1]); }
    }
    assert IsRun(run', steps') && run'[|steps'|] == s';
    RunHasInv(run', steps', |steps'|);
    InvIsWellFormed(s');
  }

  /** What all the states of the run have in common. */
  ghost predicate Fine(s: System, n: nat) {
    && Reachable(s) && WellFormed(s) && s.nodes.Keys == All(n)
    && forall v | v in s.votes :: v.0 < n
  }

  lemma FineFacts(s: System, n: nat, id: NodeId)
    requires Fine(s, n)
    ensures WellFormed(s) && s.backers.Keys == s.nodes.Keys && s.stale.Keys == s.nodes.Keys
            && (id in s.nodes <==> id < n + 2)
  {
  }

  lemma FineNext(s: System, n: nat, step: Step)
    requires Fine(s, n) && Enabled(s, step)
    requires var s' := Next(s, step);
             s'.nodes.Keys == s.nodes.Keys && forall v | v in s'.votes :: v in s.votes || v.0 < n
    ensures Fine(Next(s, step), n)
  {
    hide Reachable, Next, WellFormed;
    ReachNext(s, step);
  }

  ghost predicate OnlyNode(s: System, s': System, id: NodeId) {
    && s'.nodes.Keys == s.nodes.Keys && forall i | i in s.nodes && i != id :: s'.nodes[i] == s.nodes[i]
  }

  lemma Schedules(s: System, n: nat, who: NodeId, epoch: nat, auth: Auth, now: int) returns (s': System)
    requires Fine(s, n) && 0 < n <= who < n + 2 && 4000 < now - auth.time
    requires who in s.nodes && s.nodes[who] == View(n, who, epoch, 0, 0, auth)
    ensures Fine(s', n) && OnlyNode(s, s', who)
            && s'.nodes[who] == View(n, who, epoch, 0, 0, Auth(now, 0, false, 0, auth.epoch))
    ensures s'.backers == s.backers[who := {}] && s'.stale == s.stale[who := 0]
    ensures s'.net == s.net && s'.sent == s.sent && s'.wins == s.wins
  {
    hide View, HandleFailover, Fine;
    FineFacts(s, n, who);
    NodeSchedules(n, who, epoch, auth, now);
    var step := Failover(who, At(now), {});
    s' := Next(s, step);
    FineNext(s, n, step);
  }

  /** Replica who asked master id for its vote; base numbers the packets. */
  ghost predicate Asked(s: System, n: nat, id: NodeId, who: NodeId, epoch: nat, base: nat) {
    base + id < s.sent && base + id in s.net && s.net[base + id] == AuthRequest(Hdr(n, who, id, epoch, true))
  }

  lemma SentTo(s: System, out: map<NodeId, Msg>, d: NodeId)
    requires d in out
    ensures var s' := Send(s, out); s.sent + d in s'.net && s'.net[s.sent + d] == out[d] && s.sent + d < s'.sent
  {
    assert s.sent + d in Numbers(s.sent, out.Keys);
  }

  lemma RequestsAsk(s: System, n: nat, who: NodeId, v: Node, epoch: nat, auth: Auth, to: set<NodeId>, id: NodeId)
    requires 0 < n <= who < n + 2 && v == View(n, who, epoch, 0, 0, auth) && id in to
    ensures Asked(Send(s, RequestsTo(v, to, true)), n, id, who, epoch, s.sent)
  {
    hide Send, View, Hdr, BuildHeader;
    SentTo(s, RequestsTo(v, to, true), id);
    Headers(n, who, epoch, 0, 0, auth, id, true);
  }

  lemma Requests(s: System, n: nat, who: NodeId, epoch: nat, count: nat, authEpoch: nat, now: int, to: set<NodeId>)
    returns (s': System)
    requires Fine(s, n) && 0 < n <= who < n + 2 && who !in to
    requires who in s.nodes && s.nodes[who] == View(n, who, epoch, 0, 0, Auth(now, count, false, 0, authEpoch))
    ensures Fine(s', n) && OnlyNode(s, s', who)
    ensures s'.nodes[who] == View(n, who, epoch + 1, 0, 0, Auth(now, count, true, 0, epoch + 1))
    ensures s'.backers == s.backers && s'.stale == s.stale && s'.wins == s.wins
    ensures forall id | id in to :: Asked(s', n, id, who, epoch + 1, s.sent)
  {
    hide View, HandleFailover, Fine, Asked, RequestsTo;
    FineFacts(s, n, who);
    NodeRequests(n, who, epoch, count, authEpoch, now);
    var step := Failover(who, At(now), to);
    s' := Next(s, step);
    FineNext(s, n, step);
    var auth := Auth(now, count, true, 0, epoch + 1);
    var v := View(n, who, epoch + 1, 0, 0, auth);
    assert s' == Send(SetNode(s, who, v), RequestsTo(v, to, true));
    forall id | id in to ensures Asked(s', n, id, who, epoch + 1, s.sent) {
      RequestsAsk(SetNode(s, who, v), n, who, v, epoch + 1, auth, to, id);
    }
  }

  lemma SendsOne(s: System, d: NodeId, m: Msg)
    ensures Send(s, map[d := m]) == s.(net := s.net[s.sent + d := m], sent := s.sent + d + 1)
  {
    assert Above({d}) == d + 1 by {
      assert {d} - {d} == {};
      assert Above({d} - {d}) == 0;
    }
    assert map[d := m].Keys == {d};
    assert Numbers(s.sent, {d}) == {s.sent + d};
  }

  /** The request in the packet is granted, and the ack sent. */
  lemma Votes(s: System, n: nat, packet: nat, id: NodeId, replica: NodeId, epoch: nat, last: nat, voted: int,
              asked: nat, now: int)
    returns (s': System)
    requires Fine(s, n) && id < n <= replica < n + 2 && epoch <= asked && last < asked && 2000 <= now - voted
    requires id in s.nodes && s.nodes[id] == View(n, id, epoch, last, voted, Idle0())
    requires packet in s.net && s.net[packet] == AuthRequest(Hdr(n, replica, id, asked, true))
    ensures Fine(s', n) && OnlyNode(s, s', id) && s'.nodes[id] == View(n, id, asked, asked, now, Idle0())
    ensures s'.backers == s.backers && s'.stale == s.stale && s'.wins == s.wins
    ensures s'.net == (s.net - {packet})[s.sent + replica := AuthAck(Hdr(n, id, replica, asked, false))]
    ensures s'.sent == s.sent + replica + 1
  {
    hide View, ReceiveRequest, Fine, BuildHeader, Send, Idle0;
    FineFacts(s, n, id);
    NodeVotes(n, id, replica, epoch, last, voted, asked, now);
    var step := Deliver(packet, now, 1000, true);
    s' := Next(s, step);
    var v := View(n, id, asked, asked, now, Idle0());
    Headers(n, id, asked, asked, now, Idle0(), replica, false);
    VoterEpoch(n, id, asked, now);
    var s1 := SetNode(s.(net := s.net - {packet}), id, v);
    SendsOne(s1.(votes := s.votes[(id, asked) := Vote(replica, s.sent + replica)]),
             replica, AuthAck(Hdr(n, id, replica, asked, false)));
    FineNext(s, n, step);
  }

  lemma VoterEpoch(n: nat, id: NodeId, asked: nat, now: int)
    ensures View(n, id, asked, asked, now, Idle0()).lastVoteEpoch == asked
  {
  }

  /** The ack in the packet is counted, for the running election or as a stale one. */
  lemma CountsAnAck(s: System, n: nat, packet: nat, id: NodeId, voter: NodeId, epoch: nat, auth: Auth, ack: nat)
    returns (s': System)
    requires Fine(s, n) && voter < n <= id < n + 2 && auth.epoch <= ack <= epoch
    requires id in s.nodes && id in s.backers && id in s.stale && s.nodes[id] == View(n, id, epoch, 0, 0, auth)
    requires packet in s.net && s.net[packet] == AuthAck(Hdr(n, voter, id, ack, false))
    ensures Fine(s', n) && OnlyNode(s, s', id)
    ensures s'.nodes[id] == View(n, id, epoch, 0, 0, auth.(count := auth.count + 1))
    ensures s'.backers == if auth.sent then s.backers[id := s.backers[id] + {voter}] else s.backers
    ensures s'.stale == if auth.sent then s.stale else s.stale[id := s.stale[id] + 1]
    ensures s'.net == s.net - {packet} && s'.sent == s.sent && s'.wins == s.wins
  {
    hide SeeEpochs, ReceiveAck, CountsAck, Fine, View;
    FineFacts(s, n, id);
    NodeCounts(n, id, voter, epoch, auth, ack);
    ViewAuth(n, id, epoch, auth);
    var step := Deliver(packet, 0, 1000, true);
    s' := Next(s, step);
    FineNext(s, n, step);
  }

  lemma ViewAuth(n: nat, id: NodeId, epoch: nat, auth: Auth)
    ensures View(n, id, epoch, 0, 0, auth).auth == auth && View(n, id, epoch, 0, 0, auth).size == n
  {
  }

  lemma WinsEpoch(s: System, n: nat, who: NodeId, epoch: nat, count: nat, now: int) returns (s': System)
    requires Fine(s, n) && 0 < n <= who < n + 2 && Quorum(n) <= count
    requires who in s.nodes && who in s.backers && who in s.stale
    requires s.nodes[who] == View(n, who, epoch, 0, 0, Auth(now, count, true, 0, epoch))
    ensures Fine(s', n) && OnlyNode(s, s', who) && s'.backers == s.backers && s'.stale == s.stale
    ensures s'.wins == s.wins + {Win(epoch, who, s.backers[who], s.stale[who], n)}
  {
    hide HandleFailover, Fine, View, Quorum;
    FineFacts(s, n, who);
    NodeWins(n, who, epoch, count, now);
    ViewAuth(n, who, epoch, Auth(now, count, true, 0, epoch));
    var step := Failover(who, At(now), {});
    s' := Next(s, step);
    FineNext(s, n, step);
  }

  // ---------- collecting votes ----------

  /** Master id can vote in this epoch at this time. */
  ghost predicate Free(s: System, n: nat, id: NodeId, epoch: nat, now: int) {
    exists e: nat, last: nat, voted: int | e <= epoch && last < epoch && 2000 <= now - voted ::
      id in s.nodes && s.nodes[id] == View(n, id, e, last, voted, Idle0())
  }

  /** Replica who runs an election with these counters. */
  ghost predicate Runs(s: System, n: nat, who: NodeId, epoch: nat, auth: Auth, backers: set<NodeId>, stale: nat) {
    && who in s.nodes && who in s.backers && who in s.stale
    && s.nodes[who] == View(n, who, epoch, 0, 0, auth) && s.backers[who] == backers && s.stale[who] == stale
  }

  /** Replica who and masters lo to hi - 1 apart, s' has the nodes and counters of s. */
  ghost predicate Others(s: System, s': System, who: NodeId, lo: nat, hi: nat) {
    && s'.wins == s.wins && s'.nodes.Keys == s.nodes.Keys
    && (forall i | i in s.nodes && i != who && !(lo <= i < hi) :: s'.nodes[i] == s.nodes[i])
    && (forall i | i in s.backers && i != who :: i in s'.backers && s'.backers[i] == s.backers[i])
    && (forall i | i in s.stale && i != who :: i in s'.stale && s'.stale[i] == s.stale[i])
  }

  /** One master votes and its ack is counted. */
  lemma OneVote(s: System, n: nat, id: NodeId, who: NodeId, epoch: nat, auth: Auth, backers: set<NodeId>,
                stale: nat, now: int, base: nat)
    returns (s': System)
    requires Fine(s, n) && id < n <= who < n + 2 && Free(s, n, id, epoch, now) && Asked(s, n, id, who, epoch, base)
    requires Runs(s, n, who, epoch, auth, backers, stale) && auth.sent && auth.epoch == epoch
    ensures Fine(s', n) && Others(s, s', who, id, id + 1)
    ensures Runs(s', n, who, epoch, auth.(count := auth.count + 1), backers + {id}, stale)
    ensures forall i, e | i != id && Asked(s, n, i, who, e, base) :: Asked(s', n, i, who, e, base)
  {
    hide View, Fine, Hdr, Idle0;
    var e: nat, last: nat, voted: int :| e <= epoch && last < epoch && 2000 <= now - voted
      && id in s.nodes && s.nodes[id] == View(n, id, e, last, voted, Idle0());
    var s1 := Votes(s, n, base + id, id, who, e, last, voted, epoch, now);
    s' := CountsAnAck(s1, n, s.sent + who, who, id, epoch, auth, epoch);
  }

  /** The masters lo to hi - 1, all asked and free, vote one after the other. */
  lemma {:induction false} Collect(s: System, n: nat, lo: nat, hi: nat, who: NodeId, epoch: nat, auth: Auth,
                                   backers: set<NodeId>, stale: nat, now: int, base: nat)
    returns (s': System, backers': set<NodeId>)
    requires Fine(s, n) && lo <= hi <= n <= who < n + 2
    requires forall id | lo <= id < hi :: Free(s, n, id, epoch, now) && Asked(s, n, id, who, epoch, base)
    requires Runs(s, n, who, epoch, auth, backers, stale) && auth.sent && auth.epoch == epoch
    ensures Fine(s', n) && Others(s, s', who, lo, hi)
    ensures Runs(s', n, who, epoch, auth.(count := auth.count + (hi - lo)), backers', stale)
    decreases hi - lo
  {
    hide Fine, View, Hdr, Asked, Runs;
    s', backers' := s, backers;
    if lo < hi {
      s' := OneVote(s, n, lo, who, epoch, auth, backers, stale, now, base);
      forall id | lo + 1 <= id < hi ensures Free(s', n, id, epoch, now) {
        assert Free(s, n, id, epoch, now);
        StaysFree(s, s', n, id, epoch, now);
      }
      s', backers' := Collect(s', n, lo + 1, hi, who, epoch, auth.(count := auth.count + 1), backers + {lo}, stale,
                              now, base);
    }
  }

  lemma StaysFree(s: System, s': System, n: nat, id: NodeId, epoch: nat, now: int)
    requires Free(s, n, id, epoch, now) && id in s.nodes && id in s'.nodes && s'.nodes[id] == s.nodes[id]
    ensures Free(s', n, id, epoch, now)
  {
    hide View;
  }

  // ---------- the run ----------

  /** The replicas have scheduled their elections and nothing has happened yet. */
  ghost function Start(n: nat): System {
    var nodes := map id | id in All(n) ::
      View(n, id, if id == n + 1 then 1 else 0, 0, 0,
           if id == n then Auth(10000, 0, false, 0, 0)
           else if id == n + 1 then Auth(20000, 0, false, 0, 0)
           else Idle0());
    System(nodes, map[], 0, map[], map id | id in All(n) :: {}, map id | id in All(n) :: 0, {})
  }

  lemma StartFine(n: nat)
    requires 0 < n
    ensures Fine(Start(n), n)
  {
    var s := Start(n);
    StartInit(n);
    StartWellFormed(n);
    var steps: seq<Step> := [];
    assert IsRun([s], steps) && [s][|steps|] == s by { hide Start, Init; }
    assert s.nodes.Keys == All(n) by { hide View; }
  }

  lemma StartWellFormed(n: nat)
    ensures WellFormed(Start(n))
  {
    var s := Start(n);
    assert s.backers.Keys == All(n) && s.stale.Keys == All(n) && s.nodes.Keys == All(n);
  }

  lemma StartInit(n: nat)
    ensures Init(Start(n))
  {
    hide WellFormed;
    StartWellFormed(n);
  }

  /** How many stale acks it takes. */
  function Enough(n: nat): (z: nat)
    requires 0 < n
    ensures z == 2 * Quorum(n) - n && 1 <= z <= 2 && (n == 1 ==> z == 1)
  {
    2 * Quorum(n) - n
  }

  /** Replica n with its election scheduled and count acks counted; replica n + 1 not begun. */
  ghost predicate Waits(s: System, n: nat, count: nat) {
    && Fine(s, n)
    && Runs(s, n, n, 1, Auth(14001, count, false, 0, 1), {}, count)
    && Runs(s, n, n + 1, 1, Auth(20000, 0, false, 0, 0), {}, 0)
    && forall id | 0 <= id < n :: Free(s, n, id, 2, 14001)
  }

  ghost predicate Ack1(s: System, n: nat, voter: NodeId, packet: nat) {
    packet in s.net && s.net[packet] == AuthAck(Hdr(n, voter, n, 1, false))
  }

  /** Replica n asks for votes in epoch 1. */
  lemma FirstRequest(n: nat, to: set<NodeId>) returns (s: System)
    requires 0 < n && n !in to
    ensures Fine(s, n) && forall id | id in to :: Asked(s, n, id, n, 1, 0)
    ensures Runs(s, n, n, 1, Auth(10000, 0, true, 0, 1), {}, 0)
    ensures Runs(s, n, n + 1, 1, Auth(20000, 0, false, 0, 0), {}, 0)
    ensures forall id | 0 <= id < n :: id in s.nodes && s.nodes[id] == View(n, id, 0, 0, 0, Idle0())
  {
    hide View, Fine, Asked, Start;
    StartFine(n);
    StartNodes(n);
    s := Requests(Start(n), n, n, 0, 0, 0, 10000, to);
  }

  lemma StartNodes(n: nat)
    ensures var s := Start(n);
            && Runs(s, n, n, 0, Auth(10000, 0, false, 0, 0), {}, 0)
            && Runs(s, n, n + 1, 1, Auth(20000, 0, false, 0, 0), {}, 0)
            && (forall id | 0 <= id < n :: id in s.nodes && s.nodes[id] == View(n, id, 0, 0, 0, Idle0()))
            && s.sent == 0
  {
    hide View;
  }

  lemma OldVoteIsFree(s: System, n: nat, id: NodeId)
    requires id in s.nodes
             && (s.nodes[id] == View(n, id, 0, 0, 0, Idle0()) || s.nodes[id] == View(n, id, 1, 1, 10000, Idle0()))
    ensures Free(s, n, id, 2, 14001)
  {
    hide View;
  }

  /** Master id votes for replica n in epoch 1, and its ack is on the way. */
  lemma FirstVote1(s: System, n: nat, id: NodeId) returns (s': System, p: nat)
    requires Fine(s, n) && id < n && Asked(s, n, id, n, 1, 0) && id in s.nodes
             && s.nodes[id] == View(n, id, 0, 0, 0, Idle0())
    ensures Fine(s', n) && OnlyNode(s, s', id) && s'.nodes[id] == View(n, id, 1, 1, 10000, Idle0())
    ensures s'.backers == s.backers && s'.stale == s.stale && s.sent <= p < s'.sent && Ack1(s', n, id, p)
    ensures forall i: NodeId | i != id && Asked(s, n, i, n, 1, 0) :: Asked(s', n, i, n, 1, 0)
    ensures forall v: NodeId, k: nat | k < s.sent && Ack1(s, n, v, k) :: Ack1(s', n, v, k)
  {
    hide View, Fine, Hdr, Idle0;
    p := s.sent + n;
    s' := Votes(s, n, id, id, n, 0, 0, 0, 1, 10000);
  }

  /** Masters vote for replica n in epoch 1; their acks are on the way when it schedules anew. */
  lemma FirstElection(n: nat) returns (s: System, p: nat, q: nat)
    requires 0 < n
    ensures Waits(s, n, 0) && Ack1(s, n, 0, p) && (Enough(n) == 2 ==> p != q && Ack1(s, n, 1, q))
  {
    hide View, Fine, Hdr, Free, Asked, Idle0;
    var two := Enough(n) == 2;
    q := 0;
    s := FirstRequest(n, if two then {0, 1} else {0});
    s, p := FirstVote1(s, n, 0);
    if two { s, q := FirstVote1(s, n, 1); }
    s := Schedules(s, n, n, 1, Auth(10000, 0, true, 0, 1), 14001);
    forall id | 0 <= id < n ensures Free(s, n, id, 2, 14001) { OldVoteIsFree(s, n, id); }
  }

  lemma OneStale(s: System, n: nat, count: nat, voter: NodeId, packet: nat) returns (s': System)
    requires Waits(s, n, count) && voter < n && Ack1(s, n, voter, packet)
    ensures Waits(s', n, count + 1)
    ensures forall v, k | k != packet && Ack1(s, n, v, k) :: Ack1(s', n, v, k)
  {
    hide View, Fine, Hdr, Free;
    s' := CountsAnAck(s, n, packet, n, voter, 1, Auth(14001, count, false, 0, 1), 1);
    forall id | 0 <= id < n ensures Free(s', n, id, 2, 14001) {
      FineFacts(s, n, id);
      StaysFree(s, s', n, id, 2, 14001);
    }
  }

  lemma StaleAcks(n: nat) returns (s: System)
    requires 0 < n
    ensures Waits(s, n, Enough(n))
  {
    hide Waits, Ack1;
    var p: nat, q: nat;
    s, p, q := FirstElection(n);
    s := OneStale(s, n, 0, 0, p);
    if Enough(n) == 2 { s := OneStale(s, n, 1, 1, q); }
  }

  ghost predicate HasWon(s: System, n: nat, who: NodeId, stale: nat) {
    exists w | w in s.wins :: w.epoch == 2 && w.replica == who && w.stale == stale && w.size == n
  }

  /** A replica that has counted stale acks asks the masters lo to hi - 1 and wins epoch 2. */
  lemma WinsWith(s: System, n: nat, who: NodeId, authEpoch: nat, stale: nat, now: int, lo: nat, hi: nat)
    returns (s': System)
    requires 0 < n <= who < n + 2 && Fine(s, n) && lo <= hi <= n && stale + (hi - lo) == Quorum(n)
    requires Runs(s, n, who, 1, Auth(now, stale, false, 0, authEpoch), {}, stale)
    requires forall id | lo <= id < hi :: Free(s, n, id, 2, now)
    ensures Fine(s', n) && HasWon(s', n, who, stale) && s.wins <= s'.wins
    ensures Others(s, s'.(wins := s.wins), who, lo, hi)
  {
    hide View, Fine, Hdr, Free, Asked, Quorum;
    var s1 := Requests(s, n, who, 1, stale, authEpoch, now, Range(lo, hi));
    var auth := Auth(now, stale, true, 0, 2);
    forall id | lo <= id < hi ensures Free(s1, n, id, 2, now) && Asked(s1, n, id, who, 2, s.sent) {
      FineFacts(s, n, id);
      StaysFree(s, s1, n, id, 2, now);
      assert id in Range(lo, hi);
    }
    var s2, backers := Collect(s1, n, lo, hi, who, 2, auth, {}, stale, now, s.sent);
    s' := WinsEpoch(s2, n, who, 2, Quorum(n), now);
    assert Win(2, who, backers, stale, n) in s'.wins;
  }

  lemma {:induction false} RangeSize(n: nat)
    ensures |Range(0, n)| == n
  {
    if n == 0 {
      assert Range(0, 0) == {};
    } else {
      RangeSize(n - 1);
      assert Range(0, n) == Range(0, n - 1) + {n - 1};
    }
  }

  lemma LaterFree(s: System, s': System, n: nat, id: NodeId)
    requires Free(s, n, id, 2, 14001) && id in s.nodes && id in s'.nodes && s'.nodes[id] == s.nodes[id]
    ensures Free(s', n, id, 2, 20000)
  {
    hide View;
  }

  /** With its stale acks replica n wins by the votes of n - q masters, replica n + 1 by those of the
      other q. */
  lemma TwoWinners(n: nat) returns (s: System)
    requires 0 < n
    ensures Fine(s, n) && HasWon(s, n, n, Enough(n)) && HasWon(s, n, n + 1, 0)
  {
    hide View, Fine, Free, HasWon, Quorum;
    var s0 := StaleAcks(n);
    var lo := n - Quorum(n);
    var s1 := WinsWith(s0, n, n, 1, Enough(n), 14001, 0, lo);
    forall id | lo <= id < n ensures Free(s1, n, id, 2, 20000) {
      FineFacts(s0, n, id);
      LaterFree(s0, s1, n, id);
    }
    s := WinsWith(s1, n, n + 1, 0, 0, 20000, lo, n);
    StillWon(s1, s, n, n, Enough(n));
  }

  lemma StillWon(s: System, s': System, n: nat, who: NodeId, stale: nat)
    requires HasWon(s, n, who, stale) && s.wins <= s'.wins
    ensures HasWon(s', n, who, stale)
  {
  }

  /** For every size of the electorate, 2q - n stale acks split it: some run has two winners of epoch 2,
      and every hypothesis of OneWinnerPerEpoch but the last holds of it. */
  lemma SplitElection(n: nat) returns (run: seq<System>, steps: seq<Step>, w1: Win, w2: Win)
    requires 0 < n
    ensures IsRun(run, steps)
    ensures w1 in run[|steps|].wins && w2 in run[|steps|].wins && w1.epoch == w2.epoch
    ensures w1.replica != w2.replica
    ensures forall v | v in run[|steps|].votes :: v.0 in Range(0, n)
    ensures |Range(0, n)| == n && w1.size == n && w2.size == n
    ensures w1.stale + w2.stale == 2 * Quorum(n) - n
  {
    hide Init, IsStep;
    RangeSize(n);
    var s := TwoWinners(n);
    w1 :| w1 in s.wins && w1.epoch == 2 && w1.replica == n && w1.stale == Enough(n) && w1.size == n;
    w2 :| w2 in s.wins && w2.epoch == 2 && w2.replica == n + 1 && w2.stale == 0 && w2.size == n;
    run, steps :| IsRun(run, steps) && run[|steps|] == s;
  }
}
