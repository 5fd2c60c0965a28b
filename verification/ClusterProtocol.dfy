/** A whole cluster: every node's state and the packets in flight, stepped in any order.

    Links are TCP connections, so a packet is delivered at most once and may be lost
    or delayed for any time.  The fields after `net` are history: no node reads them. */
module ClusterProtocol {
  import opened ClusterState

  datatype Win = Win(epoch: nat, replica: NodeId, backers: set<NodeId>, stale: nat, size: nat)

  /** A vote given: for which replica, and the number of the packet that carries the ack. */
  datatype Vote = Vote(replica: NodeId, packet: nat)

  datatype System = System(
    nodes: map<NodeId, Node>,
    net: map<nat, Msg>,                    // packets in flight, by packet number
    sent: nat,                             // packet numbers from here up are unused
    votes: map<(NodeId, nat), Vote>,       // by voter and epoch
    backers: map<NodeId, set<NodeId>>,     // replica -> voters counted for its running election
    stale: map<NodeId, nat>,               // replica -> acks counted before it asked for votes
    wins: set<Win>)

  datatype Step =
    | SendPing(who: NodeId, to: set<NodeId>)
    | SendUpdate(who: NodeId, to: set<NodeId>, about: NodeId)
    | Drop(packet: nat)
    | Deliver(packet: nat, now: int, nodeTimeout: int, linkUp: bool)
    | Failover(who: NodeId, env: Env, to: set<NodeId>)
    | BumpEpoch(who: NodeId)
    | RefreshState(who: NodeId)
    | MarkFailed(who: NodeId, about: NodeId, failed: bool)

  ghost function Above(ids: set<NodeId>): (bound: nat)
    ensures forall id | id in ids :: id < bound
  {
    if ids == {} then 0
    else
      var id :| id in ids;
      assert forall other | other in ids :: other == id || other in ids - {id};
      Max(id + 1, Above(ids - {id}))
  }

  ghost function Numbers(base: nat, ids: set<NodeId>): set<nat> {
    set d | d in ids :: base + d
  }

  /** Hand one packet per destination to the network, under unused packet numbers. */
  ghost function Send(s: System, out: map<NodeId, Msg>): System {
    s.(net := s.net + map k | k in Numbers(s.sent, out.Keys) :: out[k - s.sent],
       sent := s.sent + Above(out.Keys))
  }

  ghost function PingsTo(n: Node, to: set<NodeId>): map<NodeId, Msg> {
    map d | d in to :: Ping(BuildHeader(n, d, false))
  }

  ghost function UpdatesTo(n: Node, to: set<NodeId>, about: NodeId): map<NodeId, Msg> {
    map d | d in to :: Update(BuildHeader(n, d, false), about, EpochOf(n, about), SlotsOf(n, about))
  }

  ghost function RequestsTo(n: Node, to: set<NodeId>, force: bool): map<NodeId, Msg> {
    map d | d in to :: AuthRequest(BuildHeader(n, d, force))
  }

  ghost predicate Enabled(s: System, step: Step) {
    match step
    case SendPing(who, to) => who in s.nodes && who !in to
    case SendUpdate(who, to, about) => who in s.nodes && who !in to && about in s.nodes[who].owner.Values
    case Drop(packet) => packet in s.net
    case Deliver(packet, _, _, _) => packet in s.net && s.net[packet].h.dst in s.nodes
    case Failover(who, _, to) => who in s.nodes && who !in to
    case BumpEpoch(who) => who in s.nodes
    case RefreshState(who) => who in s.nodes
    case MarkFailed(who, _, _) => who in s.nodes
  }

  ghost predicate WellFormed(s: System) {
    && s.backers.Keys == s.nodes.Keys && s.stale.Keys == s.nodes.Keys
    && forall id | id in s.nodes :: s.nodes[id].me == id && id in s.nodes[id].peers
  }

  ghost function SetNode(s: System, id: NodeId, n: Node): System {
    s.(nodes := s.nodes[id := n])
  }

  ghost function Next(s: System, step: Step): System
    requires WellFormed(s) && Enabled(s, step)
  {
    match step
    case SendPing(who, to) => Send(s, PingsTo(s.nodes[who], to))
    case SendUpdate(who, to, about) => Send(s, UpdatesTo(s.nodes[who], to, about))
    case Drop(packet) => s.(net := s.net - {packet})
    case Deliver(packet, now, nodeTimeout, linkUp) =>
      DeliverMsg(s.(net := s.net - {packet}), s.net[packet], now, nodeTimeout, linkUp)
    case Failover(who, env, to) => RunFailover(s, who, env, to)
    case BumpEpoch(who) => SetNode(s, who, Bump(s.nodes[who]).0)
    case RefreshState(who) => SetNode(s, who, UpdateState(s.nodes[who]))
    case MarkFailed(who, about, failed) => SetNode(s, who, SetFailed(s.nodes[who], about, failed))
  }

  ghost function DeliverMsg(s: System, m: Msg, now: int, nodeTimeout: int, linkUp: bool): System
    requires WellFormed(s) && m.h.dst in s.nodes
  {
    var id := m.h.dst;
    match m
    case Ping(h) => SetNode(s, id, ReceivePing(s.nodes[id], h))
    case Update(h, _, _, _) => SetNode(s, id, ReceiveUpdate(s.nodes[id], m))
    case AuthRequest(h) => DeliverRequest(s, id, h, now, nodeTimeout, linkUp)
    case AuthAck(h) => DeliverAck(s, id, h)
  }

  ghost function DeliverRequest(s: System, id: NodeId, h: Header, now: int, nodeTimeout: int, linkUp: bool): System
    requires id in s.nodes
  {
    var (n, granted) := ReceiveRequest(s.nodes[id], h, now, nodeTimeout);
    if granted then CastVote(s, id, n, h.src, linkUp) else SetNode(s, id, n)
  }

  /** Record the vote and, if the link to the replica is up, send the ack. */
  ghost function CastVote(s: System, id: NodeId, n: Node, replica: NodeId, linkUp: bool): System {
    var s' := SetNode(s, id, n).(votes := s.votes[(id, n.lastVoteEpoch) := Vote(replica, s.sent + replica)]);
    if linkUp then Send(s', map[replica := AuthAck(BuildHeader(n, replica, false))])
    else s'.(sent := s.sent + replica + 1)
  }

  ghost function DeliverAck(s: System, id: NodeId, h: Header): System
    requires id in s.nodes && id in s.backers && id in s.stale
  {
    var n := s.nodes[id];
    var s' := SetNode(s, id, ReceiveAck(n, h));
    if !CountsAck(SeeEpochs(n, h), h) then s'
    else if n.auth.sent then s'.(backers := s.backers[id := s.backers[id] + {h.src}])
    else s'.(stale := s.stale[id := s.stale[id] + 1])
  }

  ghost function RunFailover(s: System, who: NodeId, env: Env, to: set<NodeId>): System
    requires WellFormed(s) && who in s.nodes
  {
    var (n, action) := HandleFailover(s.nodes[who], env);
    var s' := SetNode(s, who, n);
    match action
    case Idle => s'
    case Scheduled => s'.(backers := s.backers[who := {}], stale := s.stale[who := 0])
    case Requested => Send(s', RequestsTo(n, to, env.mfEnd))
    case Won =>
      s'.(wins := s.wins + {Win(n.auth.epoch, who, s.backers[who], s.stale[who], s.nodes[who].size)})
  }

  // ---------- the invariant ----------

  /** No epoch a node holds exceeds its current epoch. */
  ghost predicate EpochsBounded(n: Node) {
    && n.lastVoteEpoch <= n.currentEpoch
    && n.auth.epoch <= n.currentEpoch
    && forall id | id in n.peers :: n.peers[id].configEpoch <= n.currentEpoch
  }

  ghost predicate MsgEpochsBounded(m: Msg) {
    && m.h.configEpoch <= m.h.currentEpoch
    && (m.Update? ==> m.aboutEpoch <= m.h.currentEpoch)
  }

  ghost predicate NodeOk(s: System, id: NodeId)
    requires id in s.nodes
  {
    s.nodes[id].me == id && id in s.nodes[id].peers && EpochsBounded(s.nodes[id])
  }

  /** A request or ack in flight belongs to an election its replica has opened, and an
      ack is the one ack of a recorded vote. */
  ghost predicate PacketOk(s: System, k: nat)
    requires k in s.net
  {
    var m := s.net[k];
    && k < s.sent
    && MsgEpochsBounded(m)
    && (m.AuthRequest? ==> m.h.src in s.nodes && m.h.currentEpoch <= s.nodes[m.h.src].auth.epoch)
    && (m.AuthAck? ==>
          && (m.h.src, m.h.currentEpoch) in s.votes
          && s.votes[(m.h.src, m.h.currentEpoch)] == Vote(m.h.dst, k)
          && m.h.dst in s.nodes && m.h.currentEpoch <= s.nodes[m.h.dst].auth.epoch)
  }

  /** A vote is never later than its voter's last vote, so a voter never votes twice in an epoch. */
  ghost predicate VoteOk(s: System, v: (NodeId, nat))
    requires v in s.votes
  {
    v.0 in s.nodes && v.1 <= s.nodes[v.0].lastVoteEpoch
  }

  /** v voted for replica id in this epoch and its ack is no longer in flight. */
  ghost predicate Backs(s: System, v: NodeId, id: NodeId, epoch: nat) {
    && (v, epoch) in s.votes
    && s.votes[(v, epoch)].replica == id
    && s.votes[(v, epoch)].packet !in s.net
    && s.votes[(v, epoch)].packet < s.sent
  }

  /** A replica's counter is exactly its recorded backers plus the stale acks it took. */
  ghost predicate CountOk(s: System, id: NodeId)
    requires id in s.nodes && id in s.backers && id in s.stale
  {
    var a := s.nodes[id].auth;
    && a.count == |s.backers[id]| + s.stale[id]
    && (!a.sent ==> s.backers[id] == {})
    && (forall v | v in s.backers[id] :: Backs(s, v, id, a.epoch))
  }

  ghost predicate WinOk(s: System, w: Win) {
    && Quorum(w.size) <= |w.backers| + w.stale
    && forall v | v in w.backers :: Backs(s, v, w.replica, w.epoch)
  }

  ghost predicate Inv(s: System) {
    && s.backers.Keys == s.nodes.Keys && s.stale.Keys == s.nodes.Keys
    && (forall id | id in s.nodes :: NodeOk(s, id))
    && (forall k | k in s.net :: PacketOk(s, k))
    && (forall v | v in s.votes :: VoteOk(s, v))
    && (forall id | id in s.nodes :: CountOk(s, id))
    && (forall w | w in s.wins :: WinOk(s, w))
  }

  /** No packet, vote or election has happened yet. */
  ghost predicate Init(s: System) {
    && WellFormed(s)
    && (forall id | id in s.nodes ::
          && EpochsBounded(s.nodes[id])
          && s.nodes[id].auth.count == 0 && !s.nodes[id].auth.sent
          && s.backers[id] == {} && s.stale[id] == 0)
    && s.net == map[] && s.votes == map[] && s.wins == {}
  }

  // ---------- one node's events keep its epochs bounded ----------

  /** What every local event may do to a node: the epochs stay bounded and only rise,
      and the event leaves the node's election and its votes alone. */
  ghost predicate Grows(n: Node, n': Node) {
    && n'.me == n.me && n.peers.Keys <= n'.peers.Keys
    && EpochsBounded(n')
    && n.currentEpoch <= n'.currentEpoch
    && n.lastVoteEpoch <= n'.lastVoteEpoch
  }

  ghost predicate LocalEvent(n: Node, n': Node) {
    Grows(n, n') && n'.lastVoteEpoch == n.lastVoteEpoch && n'.auth == n.auth
  }

  lemma ClaimIsLocal(n: Node, claimant: NodeId, epoch: nat, slots: set<Slot>)
    requires n.me in n.peers && EpochsBounded(n)
    ensures LocalEvent(n, ClaimSlots(n, claimant, epoch, slots))
  {
  }

  lemma SeeEpochsIsLocal(n: Node, h: Header)
    requires EpochsBounded(n) && h.configEpoch <= h.currentEpoch
    ensures LocalEvent(n, SeeEpochs(n, h))
    ensures h.src in n.peers ==> h.currentEpoch <= SeeEpochs(n, h).currentEpoch
  {
  }

  lemma PingIsLocal(n: Node, h: Header)
    requires n.me in n.peers && EpochsBounded(n) && h.configEpoch <= h.currentEpoch
    ensures LocalEvent(n, ReceivePing(n, h))
  {
    if h.src in n.peers {
      SeeEpochsIsLocal(n, h);
      var n1 := SwitchRole(SeeEpochs(n, h), h);
      assert LocalEvent(n, n1);
      ClaimIsLocal(n1, h.src, h.configEpoch, h.slots);
    }
  }

  lemma UpdateIsLocal(n: Node, m: Msg)
    requires m.Update? && n.me in n.peers && EpochsBounded(n) && MsgEpochsBounded(m)
    ensures LocalEvent(n, ReceiveUpdate(n, m))
  {
    SeeEpochsIsLocal(n, m.h);
    var n1 := SeeEpochs(n, m.h);
    if m.h.src in n.peers && m.about in n1.peers {
      ClaimIsLocal(SetPeer(n1, m.about, n1.peers[m.about].(role := Master, configEpoch := m.aboutEpoch)),
                   m.about, m.aboutEpoch, m.aboutSlots);
    }
  }

  // ---------- small changes to a system that keep the invariant ----------

  /** Changes to s that a recorded backer, vote or win survives. */
  ghost predicate Keeps(s: System, s': System) {
    && s.sent <= s'.sent
    && (forall v | v in s.votes :: v in s'.votes && s'.votes[v] == s.votes[v])
    && (forall k | k in s'.net && k < s.sent :: k in s.net)
  }

  lemma BacksPersists(s: System, s': System, v: NodeId, id: NodeId, epoch: nat)
    requires Keeps(s, s') && Backs(s, v, id, epoch)
    ensures Backs(s', v, id, epoch)
  {
    assert s'.votes[(v, epoch)] == s.votes[(v, epoch)];
  }

  lemma WinsPersist(s: System, s': System)
    requires Keeps(s, s') && Inv(s)
    ensures forall w | w in s.wins :: WinOk(s', w)
  {
    forall w | w in s.wins ensures WinOk(s', w) {
      assert WinOk(s, w);
      forall v | v in w.backers ensures Backs(s', v, w.replica, w.epoch) {
        BacksPersists(s, s', v, w.replica, w.epoch);
      }
    }
  }

  /** The same count, sent flag and epoch. */
  ghost predicate SameElection(a: Auth, b: Auth) {
    a.count == b.count && a.sent == b.sent && a.epoch == b.epoch
  }

  lemma CountPersists(s: System, s': System, id: NodeId)
    requires Keeps(s, s') && id in s.nodes && id in s.backers && id in s.stale && CountOk(s, id)
    requires id in s'.nodes && SameElection(s.nodes[id].auth, s'.nodes[id].auth)
    requires id in s'.backers && s'.backers[id] == s.backers[id]
    requires id in s'.stale && s'.stale[id] == s.stale[id]
    ensures CountOk(s', id)
  {
    var epoch := s.nodes[id].auth.epoch;
    forall v | v in s.backers[id] ensures Backs(s', v, id, epoch) {
      BacksPersists(s, s', v, id, epoch);
    }
  }

  lemma CountsPersist(s: System, s': System)
    requires Keeps(s, s') && s'.nodes == s.nodes && s'.backers == s.backers && s'.stale == s.stale
    requires s.backers.Keys == s.nodes.Keys && s.stale.Keys == s.nodes.Keys
    requires forall id | id in s.nodes :: CountOk(s, id)
    ensures forall id | id in s.nodes :: CountOk(s', id)
  {
    forall id | id in s.nodes ensures CountOk(s', id) { CountPersists(s, s', id); }
  }

  lemma InvIsWellFormed(s: System)
    requires Inv(s)
    ensures WellFormed(s)
  {
    forall id | id in s.nodes ensures s.nodes[id].me == id && id in s.nodes[id].peers {
      assert NodeOk(s, id);
    }
  }

  lemma InvFacts(s: System, id: NodeId)
    requires Inv(s) && id in s.nodes
    ensures id in s.backers && id in s.stale && NodeOk(s, id) && CountOk(s, id)
  {
  }

  lemma InvKeys(s: System)
    requires Inv(s)
    ensures s.backers.Keys == s.nodes.Keys && s.stale.Keys == s.nodes.Keys
  {
  }

  lemma PacketFacts(s: System, k: nat)
    requires Inv(s) && k in s.net
    ensures PacketOk(s, k)
  {
  }

  /** s' is s with node id grown. */
  ghost predicate OneGrows(s: System, s': System, id: NodeId) {
    && id in s.nodes && id in s'.nodes && s'.nodes == s.nodes[id := s'.nodes[id]]
    && s.nodes[id].auth.epoch <= s'.nodes[id].auth.epoch
    && s.nodes[id].lastVoteEpoch <= s'.nodes[id].lastVoteEpoch
    && s'.net == s.net && s'.votes == s.votes && s'.sent == s.sent && s'.wins == s.wins
  }

  lemma PacketsSurviveNode(s: System, s': System, id: NodeId)
    requires Inv(s) && OneGrows(s, s', id)
    ensures forall k | k in s'.net :: PacketOk(s', k)
  {
    hide Inv;
    forall k | k in s.net ensures PacketOk(s', k) { PacketFacts(s, k); }
  }

  lemma VotesSurviveNode(s: System, s': System, id: NodeId)
    requires Inv(s) && OneGrows(s, s', id)
    ensures forall v | v in s'.votes :: VoteOk(s', v)
  {
    forall v | v in s.votes ensures VoteOk(s', v) { assert VoteOk(s, v); }
  }

  /** One node grows; its election is replaced by one with the given backers and stale acks. */
  lemma ElectionKeepsInv(s: System, id: NodeId, n: Node, backers: set<NodeId>, stale: nat)
    requires Inv(s) && id in s.nodes && Grows(s.nodes[id], n)
    requires s.nodes[id].auth.epoch <= n.auth.epoch
    requires n.auth.count == |backers| + stale && (!n.auth.sent ==> backers == {})
    requires forall v | v in backers :: Backs(s, v, id, n.auth.epoch)
    ensures Inv(SetNode(s, id, n).(backers := s.backers[id := backers], stale := s.stale[id := stale]))
  {
    hide Inv;
    var s' := SetNode(s, id, n).(backers := s.backers[id := backers], stale := s.stale[id := stale]);
    InvFacts(s, id);
    PacketsSurviveNode(s, s', id);
    VotesSurviveNode(s, s', id);
    WinsPersist(s, s');
    ElectionCounts(s, s', id);
    MakeInv(s');
  }

  lemma MakeInv(s: System)
    requires s.backers.Keys == s.nodes.Keys && s.stale.Keys == s.nodes.Keys
    requires forall id | id in s.nodes :: NodeOk(s, id) && CountOk(s, id)
    requires forall k | k in s.net :: PacketOk(s, k)
    requires forall v | v in s.votes :: VoteOk(s, v)
    requires forall w | w in s.wins :: WinOk(s, w)
    ensures Inv(s)
  {
  }

  lemma ElectionCounts(s: System, s': System, id: NodeId)
    requires Inv(s) && OneGrows(s, s', id) && id in s'.backers && id in s'.stale
    requires s'.backers == s.backers[id := s'.backers[id]] && s'.stale == s.stale[id := s'.stale[id]]
    requires NodeOk(s', id)
    requires var a := s'.nodes[id].auth;
             && a.count == |s'.backers[id]| + s'.stale[id]
             && (!a.sent ==> s'.backers[id] == {})
             && forall v | v in s'.backers[id] :: Backs(s, v, id, a.epoch)
    ensures s'.backers.Keys == s'.nodes.Keys && s'.stale.Keys == s'.nodes.Keys
    ensures forall i | i in s'.nodes :: NodeOk(s', i) && CountOk(s', i)
  {
    hide Inv;
    InvKeys(s);
    forall i | i in s'.nodes ensures NodeOk(s', i) && CountOk(s', i) {
      if i != id {
        InvFacts(s, i);
        CountPersists(s, s', i);
      } else {
        forall v | v in s'.backers[id] ensures Backs(s', v, id, s'.nodes[id].auth.epoch) {
          BacksPersists(s, s', v, id, s'.nodes[id].auth.epoch);
        }
      }
    }
  }

  /** One node grows and its election stays what it was. */
  lemma NodeKeepsInv(s: System, id: NodeId, n: Node)
    requires Inv(s) && id in s.nodes && Grows(s.nodes[id], n) && SameElection(s.nodes[id].auth, n.auth)
    ensures Inv(SetNode(s, id, n))
  {
    hide Inv, Grows;
    InvFacts(s, id);
    ElectionKeepsInv(s, id, n, s.backers[id], s.stale[id]);
    assert s.backers[id := s.backers[id]] == s.backers && s.stale[id := s.stale[id]] == s.stale;
  }

  /** Only the packets, the votes or the wins change. */
  lemma HistoryKeepsInv(s: System, s': System)
    requires Inv(s) && Keeps(s, s')
    requires s'.nodes == s.nodes && s'.backers == s.backers && s'.stale == s.stale
    requires forall k | k in s'.net :: PacketOk(s', k)
    requires forall v | v in s'.votes :: VoteOk(s', v)
    requires forall w | w in s'.wins && w !in s.wins :: WinOk(s', w)
    ensures Inv(s')
  {
    CountsPersist(s, s');
    WinsPersist(s, s');
    forall id | id in s'.nodes ensures NodeOk(s', id) { assert NodeOk(s, id); }
  }

  lemma DropKeepsInv(s: System, packet: nat)
    requires Inv(s)
    ensures Inv(s.(net := s.net - {packet}))
  {
    var s' := s.(net := s.net - {packet});
    forall k | k in s'.net ensures PacketOk(s', k) { assert PacketOk(s, k); }
    forall v | v in s'.votes ensures VoteOk(s', v) { assert VoteOk(s, v); }
    HistoryKeepsInv(s, s');
  }

  /** A packet that may be sent to d: see PacketOk. */
  ghost predicate MaySend(s: System, d: NodeId, m: Msg) {
    && MsgEpochsBounded(m)
    && (m.AuthRequest? ==> m.h.src in s.nodes && m.h.currentEpoch <= s.nodes[m.h.src].auth.epoch)
    && (m.AuthAck? ==>
          && (m.h.src, m.h.currentEpoch) in s.votes
          && s.votes[(m.h.src, m.h.currentEpoch)] == Vote(m.h.dst, s.sent + d)
          && m.h.dst in s.nodes && m.h.currentEpoch <= s.nodes[m.h.dst].auth.epoch)
  }

  lemma SendKeepsInv(s: System, out: map<NodeId, Msg>)
    requires Inv(s) && forall d | d in out :: MaySend(s, d, out[d])
    ensures Inv(Send(s, out))
  {
    var s' := Send(s, out);
    forall k | k in s'.net ensures PacketOk(s', k) {
      if k in Numbers(s.sent, out.Keys) {
        assert MaySend(s, k - s.sent, out[k - s.sent]);
      } else {
        assert PacketOk(s, k);
      }
    }
    forall v | v in s'.votes ensures VoteOk(s', v) { assert VoteOk(s, v); }
    HistoryKeepsInv(s, s');
  }

  /** Recording a vote in an epoch new to the voter disturbs nothing already recorded. */
  lemma VoteKeepsInv(s: System, id: NodeId, epoch: nat, vote: Vote)
    requires Inv(s) && id in s.nodes && epoch <= s.nodes[id].lastVoteEpoch && (id, epoch) !in s.votes
    ensures Inv(s.(votes := s.votes[(id, epoch) := vote]))
  {
    var s' := s.(votes := s.votes[(id, epoch) := vote]);
    forall k | k in s'.net ensures PacketOk(s', k) { assert PacketOk(s, k); }
    forall v | v in s'.votes ensures VoteOk(s', v) {
      if v in s.votes { assert VoteOk(s, v); }
    }
    HistoryKeepsInv(s, s');
  }

  lemma WinKeepsInv(s: System, w: Win)
    requires Inv(s) && WinOk(s, w)
    ensures Inv(s.(wins := s.wins + {w}))
  {
    var s' := s.(wins := s.wins + {w});
    forall k | k in s'.net ensures PacketOk(s', k) { assert PacketOk(s, k); }
    forall v | v in s'.votes ensures VoteOk(s', v) { assert VoteOk(s, v); }
    forall v | v in w.backers ensures Backs(s', v, w.replica, w.epoch) {
      BacksPersists(s, s', v, w.replica, w.epoch);
    }
    HistoryKeepsInv(s, s');
  }

  // ---------- every step keeps the invariant ----------

  // What clusterHandleSlaveFailover does to the fields the invariant speaks of.

  lemma FailoverFacts(n: Node, env: Env)
    requires n.me in n.peers && EpochsBounded(n)
    ensures var (n', action) := HandleFailover(n, env);
            && Grows(n, n') && n'.lastVoteEpoch == n.lastVoteEpoch
            && (action.Requested? ==> && n'.auth.epoch == n'.currentEpoch == n.currentEpoch + 1
                                      && n'.auth.count == n.auth.count && !n.auth.sent)
            && (action.Scheduled? ==> n'.auth.count == 0 && !n'.auth.sent && n'.auth.epoch == n.auth.epoch)
            && (action.Idle? || action.Won? ==>
                  n'.auth.count == n.auth.count && n'.auth.sent == n.auth.sent && n'.auth.epoch == n.auth.epoch)
            && (action.Won? ==> Quorum(n.size) <= n.auth.count)
  {
  }

  lemma WonKeepsInv(s: System, who: NodeId, n: Node)
    requires Inv(s) && who in s.nodes && Grows(s.nodes[who], n) && SameElection(s.nodes[who].auth, n.auth)
    requires Quorum(s.nodes[who].size) <= n.auth.count
    ensures Inv(SetNode(s, who, n).(
              wins := s.wins + {Win(n.auth.epoch, who, s.backers[who], s.stale[who], s.nodes[who].size)}))
  {
    NodeKeepsInv(s, who, n);
    var s1 := SetNode(s, who, n);
    assert CountOk(s1, who);
    WinKeepsInv(s1, Win(n.auth.epoch, who, s.backers[who], s.stale[who], s.nodes[who].size));
  }

  /** Asking for votes opens an election in an epoch no earlier request or ack carries. */
  lemma RequestKeepsInv(s: System, who: NodeId, n: Node, out: map<NodeId, Msg>)
    requires Inv(s) && who in s.nodes && Grows(s.nodes[who], n)
    requires !s.nodes[who].auth.sent && n.auth.count == s.nodes[who].auth.count
    requires s.nodes[who].auth.epoch <= n.auth.epoch
    requires forall d | d in out :: MsgEpochsBounded(out[d]) && out[d].AuthRequest?
                                    && out[d].h.src == who && out[d].h.currentEpoch == n.auth.epoch
    ensures Inv(Send(SetNode(s, who, n), out))
  {
    hide Inv;
    InvFacts(s, who);
    ElectionKeepsInv(s, who, n, {}, s.stale[who]);
    assert s.backers[who := {}] == s.backers && s.stale[who := s.stale[who]] == s.stale;
    SendKeepsInv(SetNode(s, who, n), out);
  }

  lemma FailoverKeepsInv(s: System, who: NodeId, env: Env, to: set<NodeId>)
    requires Inv(s) && WellFormed(s) && who in s.nodes
    ensures Inv(RunFailover(s, who, env, to))
  {
    hide Inv;
    InvFacts(s, who);
    FailoverFacts(s.nodes[who], env);
    var (n, action) := HandleFailover(s.nodes[who], env);
    match action {
      case Idle => NodeKeepsInv(s, who, n);
      case Won => WonKeepsInv(s, who, n);
      case Scheduled => ElectionKeepsInv(s, who, n, {}, 0);
      case Requested => RequestKeepsInv(s, who, n, RequestsTo(n, to, env.mfEnd));
    }
  }

  /** A vote is given in the request's own epoch, later than any epoch its voter voted in. */
  lemma GrantFacts(n: Node, h: Header, now: int, nodeTimeout: int)
    requires EpochsBounded(n) && h.configEpoch <= h.currentEpoch
    ensures var (n', granted) := ReceiveRequest(n, h, now, nodeTimeout);
            && Grows(n, n') && n'.auth == n.auth
            && (!granted ==> LocalEvent(n, n'))
            && (granted ==> n.lastVoteEpoch < n'.lastVoteEpoch == n'.currentEpoch == h.currentEpoch)
  {
    SeeEpochsIsLocal(n, h);
  }

  lemma RecordVoteKeepsInv(s: System, id: NodeId, n: Node, vote: Vote)
    requires Inv(s) && id in s.nodes && Grows(s.nodes[id], n) && n.auth == s.nodes[id].auth
    requires s.nodes[id].lastVoteEpoch < n.lastVoteEpoch
    ensures Inv(SetNode(s, id, n).(votes := s.votes[(id, n.lastVoteEpoch) := vote]))
  {
    hide Inv, Grows;
    FirstVote(s, id, n.lastVoteEpoch);
    NodeKeepsInv(s, id, n);
    VoteKeepsInv(SetNode(s, id, n), id, n.lastVoteEpoch, vote);
  }

  lemma AckMaySend(s: System, n: Node, replica: NodeId)
    requires EpochsBounded(n) && replica in s.nodes && n.currentEpoch <= s.nodes[replica].auth.epoch
    requires (n.me, n.currentEpoch) in s.votes
    requires s.votes[(n.me, n.currentEpoch)] == Vote(replica, s.sent + replica)
    ensures MaySend(s, replica, AuthAck(BuildHeader(n, replica, false)))
  {
  }

  lemma CastVoteKeepsInv(s: System, id: NodeId, n: Node, replica: NodeId, linkUp: bool)
    requires Inv(s) && id in s.nodes && Grows(s.nodes[id], n) && n.me == id && n.auth == s.nodes[id].auth
    requires s.nodes[id].lastVoteEpoch < n.lastVoteEpoch == n.currentEpoch
    requires replica in s.nodes && n.currentEpoch <= s.nodes[replica].auth.epoch
    ensures Inv(CastVote(s, id, n, replica, linkUp))
  {
    hide Inv, MaySend, BuildHeader, Send;
    var vote := Vote(replica, s.sent + replica);
    RecordVoteKeepsInv(s, id, n, vote);
    var s1 := SetNode(s, id, n).(votes := s.votes[(id, n.lastVoteEpoch) := vote]);
    if linkUp {
      AckMaySend(s1, n, replica);
      SendKeepsInv(s1, map[replica := AuthAck(BuildHeader(n, replica, false))]);
    } else {
      SkipKeepsInv(s1, s.sent + replica + 1);
    }
  }

  lemma FirstVote(s: System, id: NodeId, epoch: nat)
    requires Inv(s) && id in s.nodes && s.nodes[id].lastVoteEpoch < epoch
    ensures (id, epoch) !in s.votes
  {
    assert (id, epoch) in s.votes ==> VoteOk(s, (id, epoch));
  }

  lemma SkipKeepsInv(s: System, sent: nat)
    requires Inv(s) && s.sent <= sent
    ensures Inv(s.(sent := sent))
  {
    var s' := s.(sent := sent);
    forall k | k in s'.net ensures PacketOk(s', k) { assert PacketOk(s, k); }
    forall v | v in s'.votes ensures VoteOk(s', v) { assert VoteOk(s, v); }
    HistoryKeepsInv(s, s');
  }

  lemma AckFacts(n: Node, h: Header)
    requires EpochsBounded(n) && h.configEpoch <= h.currentEpoch
    ensures Grows(n, ReceiveAck(n, h)) && ReceiveAck(n, h).lastVoteEpoch == n.lastVoteEpoch
    ensures !CountsAck(SeeEpochs(n, h), h) ==> LocalEvent(n, ReceiveAck(n, h))
    ensures CountsAck(SeeEpochs(n, h), h) ==>
              ReceiveAck(n, h).auth == n.auth.(count := n.auth.count + 1) && n.auth.epoch <= h.currentEpoch
  {
    SeeEpochsIsLocal(n, h);
  }

  /** An ack that counts is for the election now running, or is counted before the next one opens. */
  lemma AckKeepsInv(s: System, packet: nat, n: Node)
    requires Inv(s) && packet in s.net && s.net[packet].AuthAck?
    requires var h := s.net[packet].h;
             && h.dst in s.nodes && Grows(s.nodes[h.dst], n)
             && n.auth == s.nodes[h.dst].auth.(count := s.nodes[h.dst].auth.count + 1)
             && n.auth.epoch <= h.currentEpoch
    ensures var h := s.net[packet].h;
            var s' := SetNode(s.(net := s.net - {packet}), h.dst, n);
            if n.auth.sent then Inv(s'.(backers := s.backers[h.dst := s.backers[h.dst] + {h.src}]))
            else Inv(s'.(stale := s.stale[h.dst := s.stale[h.dst] + 1]))
  {
    hide Inv;
    var h := s.net[packet].h;
    var id := h.dst;
    var s1 := s.(net := s.net - {packet});
    DropKeepsInv(s, packet);
    PacketFacts(s, packet);
    InvFacts(s1, id);
    NewBacker(s, packet);
    if n.auth.sent {
      ElectionKeepsInv(s1, id, n, s.backers[id] + {h.src}, s.stale[id]);
      assert s.stale[id := s.stale[id]] == s.stale;
    } else {
      ElectionKeepsInv(s1, id, n, s.backers[id], s.stale[id] + 1);
      assert s.backers[id := s.backers[id]] == s.backers;
    }
  }

  /** A voter whose ack is still in flight has not been counted; delivering it makes it a backer. */
  lemma NewBacker(s: System, packet: nat)
    requires Inv(s) && packet in s.net && s.net[packet].AuthAck?
    ensures var h := s.net[packet].h;
            && h.dst in s.nodes
            && (s.nodes[h.dst].auth.epoch <= h.currentEpoch ==>
                  && h.src !in s.backers[h.dst]
                  && Backs(s.(net := s.net - {packet}), h.src, h.dst, s.nodes[h.dst].auth.epoch))
  {
    var h := s.net[packet].h;
    assert PacketOk(s, packet) && CountOk(s, h.dst);
    assert h.src in s.backers[h.dst] ==> Backs(s, h.src, h.dst, s.nodes[h.dst].auth.epoch);
  }

  lemma DeliverRequestKeepsInv(s: System, id: NodeId, h: Header, now: int, nodeTimeout: int, linkUp: bool)
    requires Inv(s) && id in s.nodes && h.configEpoch <= h.currentEpoch
    requires h.src in s.nodes && h.currentEpoch <= s.nodes[h.src].auth.epoch
    ensures Inv(DeliverRequest(s, id, h, now, nodeTimeout, linkUp))
  {
    hide Inv;
    InvFacts(s, id);
    GrantFacts(s.nodes[id], h, now, nodeTimeout);
    var (n, granted) := ReceiveRequest(s.nodes[id], h, now, nodeTimeout);
    if granted {
      CastVoteKeepsInv(s, id, n, h.src, linkUp);
    } else {
      NodeKeepsInv(s, id, n);
    }
  }

  lemma DeliverAckKeepsInv(s: System, packet: nat)
    requires Inv(s) && packet in s.net && s.net[packet].AuthAck? && s.net[packet].h.dst in s.nodes
    ensures Inv(DeliverAck(s.(net := s.net - {packet}), s.net[packet].h.dst, s.net[packet].h))
  {
    hide Inv;
    var h := s.net[packet].h;
    var n := s.nodes[h.dst];
    PacketFacts(s, packet);
    InvFacts(s, h.dst);
    AckFacts(n, h);
    if CountsAck(SeeEpochs(n, h), h) {
      AckKeepsInv(s, packet, ReceiveAck(n, h));
    } else {
      DropKeepsInv(s, packet);
      NodeKeepsInv(s.(net := s.net - {packet}), h.dst, ReceiveAck(n, h));
    }
  }

  lemma DeliverKeepsInv(s: System, packet: nat, now: int, nodeTimeout: int, linkUp: bool)
    requires Inv(s) && WellFormed(s) && packet in s.net && s.net[packet].h.dst in s.nodes
    ensures Inv(DeliverMsg(s.(net := s.net - {packet}), s.net[packet], now, nodeTimeout, linkUp))
  {
    hide Inv;
    var m := s.net[packet];
    var id := m.h.dst;
    var s' := s.(net := s.net - {packet});
    PacketFacts(s, packet);
    InvFacts(s, id);
    DropKeepsInv(s, packet);
    match m {
      case Ping(h) =>
        PingIsLocal(s.nodes[id], h);
        NodeKeepsInv(s', id, ReceivePing(s.nodes[id], h));
      case Update(h, _, _, _) =>
        UpdateIsLocal(s.nodes[id], m);
        NodeKeepsInv(s', id, ReceiveUpdate(s.nodes[id], m));
      case AuthRequest(h) => DeliverRequestKeepsInv(s', id, h, now, nodeTimeout, linkUp);
      case AuthAck(h) => DeliverAckKeepsInv(s, packet);
    }
  }

  lemma BumpIsLocal(n: Node)
    requires n.me in n.peers && EpochsBounded(n)
    ensures LocalEvent(n, Bump(n).0)
  {
  }

  lemma RefreshIsLocal(n: Node)
    requires EpochsBounded(n)
    ensures LocalEvent(n, UpdateState(n))
  {
  }

  lemma MarkFailedIsLocal(n: Node, about: NodeId, failed: bool)
    requires EpochsBounded(n)
    ensures LocalEvent(n, SetFailed(n, about, failed))
  {
  }

  lemma StepKeepsInv(s: System, step: Step)
    requires Inv(s) && WellFormed(s) && Enabled(s, step)
    ensures Inv(Next(s, step)) && WellFormed(Next(s, step))
  {
    hide Inv;
    match step {
      case SendPing(who, to) =>
        InvFacts(s, who);
        SendKeepsInv(s, PingsTo(s.nodes[who], to));
      case SendUpdate(who, to, about) =>
        InvFacts(s, who);
        SendKeepsInv(s, UpdatesTo(s.nodes[who], to, about));
      case Drop(packet) => DropKeepsInv(s, packet);
      case Deliver(packet, now, nodeTimeout, linkUp) => DeliverKeepsInv(s, packet, now, nodeTimeout, linkUp);
      case Failover(who, env, to) => FailoverKeepsInv(s, who, env, to);
      case BumpEpoch(who) =>
        InvFacts(s, who);
        BumpIsLocal(s.nodes[who]);
        NodeKeepsInv(s, who, Bump(s.nodes[who]).0);
      case RefreshState(who) =>
        InvFacts(s, who);
        RefreshIsLocal(s.nodes[who]);
        NodeKeepsInv(s, who, UpdateState(s.nodes[who]));
      case MarkFailed(who, about, failed) =>
        InvFacts(s, who);
        MarkFailedIsLocal(s.nodes[who], about, failed);
        NodeKeepsInv(s, who, SetFailed(s.nodes[who], about, failed));
    }
    InvIsWellFormed(Next(s, step));
  }
}
