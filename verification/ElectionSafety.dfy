/** Theorems about every run of the cluster protocol, from any starting configuration
    and under any order, delay and loss of packets. */
module ElectionSafety {
  import opened Common
  import opened ClusterState
  import opened ClusterProtocol

  ghost predicate IsRun(run: seq<System>, steps: seq<Step>) {
    && |run| == |steps| + 1
    && Init(run[0])
    && forall i | 0 <= i < |steps| :: IsStep(run[i], steps[i], run[i + 1])
  }

  ghost predicate IsStep(s: System, step: Step, s': System) {
    WellFormed(s) && Enabled(s, step) && s' == Next(s, step)
  }

  lemma InitHasInv(s: System)
    requires Init(s)
    ensures Inv(s)
  {
    hide Inv;
    forall id | id in s.nodes ensures NodeOk(s, id) && CountOk(s, id) {
    }
    MakeInv(s);
  }

  lemma {:induction false} RunHasInv(run: seq<System>, steps: seq<Step>, i: nat)
    requires IsRun(run, steps) && i < |run|
    ensures Inv(run[i])
  {
    hide Inv, Next, Init;
    if i == 0 {
      InitHasInv(run[0]);
    } else {
      RunHasInv(run, steps, i - 1);
      assert IsStep(run[i - 1], steps[i - 1], run[i]);
      StepKeepsInv(run[i - 1], steps[i - 1]);
    }
  }

  // ---------- epochs ----------

  /** In every reachable state, no config epoch, vote or election of a node, and no epoch in a
      packet, exceeds the current epoch it travels with. */
  lemma EpochInvariant(run: seq<System>, steps: seq<Step>, i: nat)
    requires IsRun(run, steps) && i < |run|
    ensures forall id | id in run[i].nodes :: EpochsBounded(run[i].nodes[id])
    ensures forall k | k in run[i].net :: MsgEpochsBounded(run[i].net[k])
  {
    hide Inv;
    RunHasInv(run, steps, i);
    forall id | id in run[i].nodes ensures EpochsBounded(run[i].nodes[id]) { InvFacts(run[i], id); }
    forall k | k in run[i].net ensures MsgEpochsBounded(run[i].net[k]) { PacketFacts(run[i], k); }
  }

  /** What one step may do to the nodes and to the votes. */
  ghost predicate Advances(s: System, s': System) {
    && s'.nodes.Keys == s.nodes.Keys
    && (forall id | id in s.nodes ::
          && s.nodes[id].currentEpoch <= s'.nodes[id].currentEpoch
          && s.nodes[id].lastVoteEpoch <= s'.nodes[id].lastVoteEpoch)
    && (forall v | v in s.votes :: v in s'.votes && s'.votes[v] == s.votes[v])
    && (forall v | v in s'.votes && v !in s.votes ::
          v.0 in s.nodes && s.nodes[v.0].lastVoteEpoch < v.1)
  }

  lemma NodeAdvances(s: System, s': System, id: NodeId)
    requires id in s.nodes && id in s'.nodes && s'.nodes == s.nodes[id := s'.nodes[id]]
    requires Grows(s.nodes[id], s'.nodes[id])
    requires s'.votes == s.votes
    ensures Advances(s, s')
  {
  }

  lemma CastVoteAdvances(s: System, id: NodeId, n: Node, replica: NodeId, linkUp: bool)
    requires Inv(s) && id in s.nodes && Grows(s.nodes[id], n) && s.nodes[id].lastVoteEpoch < n.lastVoteEpoch
    ensures Advances(s, CastVote(s, id, n, replica, linkUp))
  {
    hide Inv, CastVote, Grows;
    FirstVote(s, id, n.lastVoteEpoch);
    CastVoteShape(s, id, n, replica, linkUp);
    GrowsEpochs(s.nodes[id], n);
  }

  lemma CastVoteShape(s: System, id: NodeId, n: Node, replica: NodeId, linkUp: bool)
    ensures var s' := CastVote(s, id, n, replica, linkUp);
            && s'.nodes == s.nodes[id := n]
            && s'.votes == s.votes[(id, n.lastVoteEpoch) := Vote(replica, s.sent + replica)]
  {
  }

  lemma GrowsEpochs(n: Node, n': Node)
    requires Grows(n, n')
    ensures n.currentEpoch <= n'.currentEpoch && n.lastVoteEpoch <= n'.lastVoteEpoch
  {
  }

  lemma DeliverRequestAdvances(s: System, id: NodeId, h: Header, now: int, nodeTimeout: int, linkUp: bool)
    requires Inv(s) && id in s.nodes && h.configEpoch <= h.currentEpoch
    ensures Advances(s, DeliverRequest(s, id, h, now, nodeTimeout, linkUp))
  {
    hide Inv, GrantsVote, SeeEpochs, Advances, CastVote, Grows, LocalEvent;
    InvFacts(s, id);
    GrantFacts(s.nodes[id], h, now, nodeTimeout);
    var (n, granted) := ReceiveRequest(s.nodes[id], h, now, nodeTimeout);
    if granted {
      CastVoteAdvances(s, id, n, h.src, linkUp);
    } else {
      NodeAdvances(s, SetNode(s, id, n), id);
    }
  }

  lemma DeliverAdvances(s: System, packet: nat, now: int, nodeTimeout: int, linkUp: bool)
    requires Inv(s) && WellFormed(s) && packet in s.net && s.net[packet].h.dst in s.nodes
    ensures Advances(s, DeliverMsg(s.(net := s.net - {packet}), s.net[packet], now, nodeTimeout, linkUp))
  {
    hide Inv, ReceivePing, ReceiveUpdate, ReceiveAck, DeliverRequest, Advances, Grows;
    var m := s.net[packet];
    var id := m.h.dst;
    var n := s.nodes[id];
    var s1 := s.(net := s.net - {packet});
    PacketFacts(s, packet);
    InvFacts(s, id);
    match m {
      case Ping(h) => PingIsLocal(n, h); NodeAdvances(s, SetNode(s1, id, ReceivePing(n, h)), id);
      case Update(h, _, _, _) => UpdateIsLocal(n, m); NodeAdvances(s, SetNode(s1, id, ReceiveUpdate(n, m)), id);
      case AuthRequest(h) =>
        DropKeepsInv(s, packet);
        DeliverRequestAdvances(s1, id, h, now, nodeTimeout, linkUp);
        SameStart(s, s1, DeliverRequest(s1, id, h, now, nodeTimeout, linkUp));
      case AuthAck(h) => AckFacts(n, h); NodeAdvances(s, DeliverAck(s1, id, h), id);
    }
  }

  lemma SameStart(s: System, s1: System, s': System)
    requires s1.nodes == s.nodes && s1.votes == s.votes && Advances(s1, s')
    ensures Advances(s, s')
  {
  }

  lemma FailoverAdvances(s: System, who: NodeId, env: Env, to: set<NodeId>)
    requires Inv(s) && WellFormed(s) && who in s.nodes
    ensures Advances(s, RunFailover(s, who, env, to))
  {
    hide Inv, HandleFailover, Advances, Grows, Quorum, BuildHeader;
    InvFacts(s, who);
    FailoverFacts(s.nodes[who], env);
    NodeAdvances(s, RunFailover(s, who, env, to), who);
  }

  lemma StepAdvances(s: System, step: Step)
    requires Inv(s) && WellFormed(s) && Enabled(s, step)
    ensures Advances(s, Next(s, step))
  {
    hide Inv, Bump, RunFailover, DeliverMsg, UpdateState, SetFailed;
    match step {
      case SendPing(_, _) =>
      case SendUpdate(_, _, _) =>
      case Drop(_) =>
      case Deliver(packet, now, nodeTimeout, linkUp) => DeliverAdvances(s, packet, now, nodeTimeout, linkUp);
      case Failover(who, env, to) => FailoverAdvances(s, who, env, to);
      case BumpEpoch(who) =>
        InvFacts(s, who);
        BumpIsLocal(s.nodes[who]);
        NodeAdvances(s, Next(s, step), who);
      case RefreshState(who) =>
        InvFacts(s, who);
        RefreshIsLocal(s.nodes[who]);
        NodeAdvances(s, Next(s, step), who);
      case MarkFailed(who, about, failed) =>
        InvFacts(s, who);
        MarkFailedIsLocal(s.nodes[who], about, failed);
        NodeAdvances(s, Next(s, step), who);
    }
  }

  lemma RunAdvances(run: seq<System>, steps: seq<Step>, i: nat)
    requires IsRun(run, steps) && i < |steps|
    ensures |run| == |steps| + 1 && Inv(run[i]) && Advances(run[i], run[i + 1])
  {
    hide Inv, Next, Advances, Init;
    RunHasInv(run, steps, i);
    assert IsStep(run[i], steps[i], run[i + 1]);
    StepAdvances(run[i], steps[i]);
  }

  /** A node's current epoch never falls, and neither does the epoch of its last vote. */
  lemma {:induction false} EpochsNeverFall(run: seq<System>, steps: seq<Step>, i: nat, j: nat, id: NodeId)
    requires IsRun(run, steps) && i <= j <= |steps| && |run| == |steps| + 1 && id in run[i].nodes
    ensures id in run[j].nodes
    ensures run[i].nodes[id].currentEpoch <= run[j].nodes[id].currentEpoch
    ensures run[i].nodes[id].lastVoteEpoch <= run[j].nodes[id].lastVoteEpoch
    decreases j
  {
    hide Inv, IsRun;
    if i < j {
      EpochsNeverFall(run, steps, i, j - 1, id);
      RunAdvances(run, steps, j - 1);
    }
  }

  /** A vote once given is never changed. */
  lemma {:induction false} VotesAreKept(run: seq<System>, steps: seq<Step>, i: nat, j: nat, v: (NodeId, nat))
    requires IsRun(run, steps) && i <= j <= |steps| && |run| == |steps| + 1 && v in run[i].votes
    ensures v in run[j].votes && run[j].votes[v] == run[i].votes[v]
    decreases j
  {
    hide Inv, IsRun;
    if i < j {
      VotesAreKept(run, steps, i, j - 1, v);
      RunAdvances(run, steps, j - 1);
    }
  }

  /** A master votes in strictly increasing epochs: a vote cast by step j is in a later epoch
      than every vote the same node had cast before. */
  lemma VotesIncrease(run: seq<System>, steps: seq<Step>, j: nat, id: NodeId, earlier: nat, later: nat)
    requires IsRun(run, steps) && j < |steps| && |run| == |steps| + 1
    requires (id, earlier) in run[j].votes
    requires (id, later) in run[j + 1].votes && (id, later) !in run[j].votes
    ensures earlier < later
  {
    hide Inv, IsRun;
    RunAdvances(run, steps, j);
    VoteFacts(run[j], (id, earlier));
  }

  lemma VoteFacts(s: System, v: (NodeId, nat))
    requires Inv(s) && v in s.votes
    ensures v.0 in s.nodes && v.1 <= s.nodes[v.0].lastVoteEpoch
  {
    assert VoteOk(s, v);
  }

  /** Taking an epoch without consensus succeeds unless this node already holds the greatest one,
      and then gives it a config epoch above every epoch it knows. */
  lemma BumpGivesGreatest(run: seq<System>, steps: seq<Step>, i: nat, id: NodeId)
    requires IsRun(run, steps) && i < |run| && id in run[i].nodes
    ensures id in run[i].nodes[id].peers && run[i].nodes[id].me == id
    ensures var n := run[i].nodes[id];
            var (n', bumped) := Bump(n);
            && MaxEpoch(n) == n.currentEpoch
            && (bumped <==> EpochOf(n, id) == 0 || EpochOf(n, id) < n.currentEpoch)
            && (bumped ==> && EpochOf(n', id) == n'.currentEpoch == n.currentEpoch + 1
                           && forall other | other in n'.peers && other != id ::
                                EpochOf(n', other) == EpochOf(n, other) < EpochOf(n', id))
            && (!bumped ==> n' == n && forall other | other in n.peers :: EpochOf(n, other) <= EpochOf(n, id))
  {
    hide Inv;
    RunHasInv(run, steps, i);
    InvFacts(run[i], id);
  }

  // ---------- elections ----------

  /** The counter a replica compares with the quorum is exactly the number of voters recorded for
      its running election plus the acks it counted before asking for votes. */
  lemma AckAccounting(run: seq<System>, steps: seq<Step>, i: nat, id: NodeId)
    requires IsRun(run, steps) && i < |run| && id in run[i].nodes
    ensures id in run[i].backers && id in run[i].stale
    ensures run[i].nodes[id].auth.count == |run[i].backers[id]| + run[i].stale[id]
    ensures forall v | v in run[i].backers[id] ::
              && (v, run[i].nodes[id].auth.epoch) in run[i].votes
              && run[i].votes[(v, run[i].nodes[id].auth.epoch)].replica == id
  {
    hide Inv;
    RunHasInv(run, steps, i);
    InvFacts(run[i], id);
    assert forall v | v in run[i].backers[id] :: Backs(run[i], v, id, run[i].nodes[id].auth.epoch);
  }

  lemma WinFacts(s: System, w: Win)
    requires Inv(s) && w in s.wins
    ensures Quorum(w.size) <= |w.backers| + w.stale
    ensures forall v | v in w.backers :: (v, w.epoch) in s.votes && s.votes[(v, w.epoch)].replica == w.replica
  {
    assert WinOk(s, w);
    assert forall v | v in w.backers :: Backs(s, v, w.replica, w.epoch);
  }

  lemma Overlap(a: set<NodeId>, b: set<NodeId>, all: set<NodeId>)
    requires a <= all && b <= all && |all| < |a| + |b|
    ensures exists v :: v in a && v in b
  {
    SubsetSize(a + b, all);
    assert |a + b| == |a| + |b| - |a * b|;
    var v :| v in a * b;
    assert v in a && v in b;
  }

  /** Election safety.  In no run do two replicas win the same epoch, provided that epoch has one
      electorate (only its members vote in the epoch, and both winners computed the quorum from
      its size) and the two winners together counted fewer than 2q - |electorate| stale acks.
      With no stale ack that always holds; one is already too many for an odd electorate. */
  lemma OneWinnerPerEpoch(run: seq<System>, steps: seq<Step>, i: nat, electorate: set<NodeId>, w1: Win, w2: Win)
    requires IsRun(run, steps) && i < |run|
    requires w1 in run[i].wins && w2 in run[i].wins && w1.epoch == w2.epoch
    requires forall v | v in run[i].votes && v.1 == w1.epoch :: v.0 in electorate
    requires w1.size == |electorate| && w2.size == |electorate|
    requires w1.stale + w2.stale < 2 * Quorum(|electorate|) - |electorate|
    ensures w1.replica == w2.replica
  {
    hide Inv;
    RunHasInv(run, steps, i);
    WinFacts(run[i], w1);
    WinFacts(run[i], w2);
    forall v | v in w1.backers ensures v in electorate { assert (v, w1.epoch) in run[i].votes; }
    forall v | v in w2.backers ensures v in electorate { assert (v, w1.epoch) in run[i].votes; }
    Overlap(w1.backers, w2.backers, electorate);
    var v :| v in w1.backers && v in w2.backers;
  }

  /** The documented case: no winner counted an ack before asking for votes. */
  lemma NoStaleAckNoSplit(run: seq<System>, steps: seq<Step>, i: nat, electorate: set<NodeId>, w1: Win, w2: Win)
    requires IsRun(run, steps) && i < |run|
    requires w1 in run[i].wins && w2 in run[i].wins && w1.epoch == w2.epoch
    requires forall v | v in run[i].votes && v.1 == w1.epoch :: v.0 in electorate
    requires w1.size == |electorate| && w2.size == |electorate|
    requires w1.stale == 0 && w2.stale == 0
    ensures w1.replica == w2.replica
  {
    OneWinnerPerEpoch(run, steps, i, electorate, w1, w2);
  }
}
