/** Who ends up with a slot: the greatest config epoch, whatever the order of the claims. */
module SlotClaims {
  import opened Common
  import opened ClusterState
  import opened ClusterProtocol
  import opened ElectionSafety

  // ---------- a slot changes hands ----------

  /** Slot j of n changes its owner from x to y. */
  ghost predicate Changes(n: Node, n': Node, j: Slot, x: NodeId, y: NodeId) {
    j in n.owner && j in n'.owner && n.owner[j] == x && n'.owner[j] == y && x != y
  }

  /** A claim gives an assigned slot only to the claimant, only if its epoch is strictly greater than the
      owner's, and only if the slot is claimed and not being imported; and it changes no epoch. */
  lemma ClaimChanges(n: Node, claimant: NodeId, epoch: nat, slots: set<Slot>, j: Slot)
    requires n.me in n.peers
    ensures var n' := ClaimSlots(n, claimant, epoch, slots);
            && (forall id :: EpochOf(n', id) == EpochOf(n, id))
            && (forall x, y | Changes(n, n', j, x, y) ::
                  y == claimant && EpochOf(n, x) < epoch && j in slots && j !in n.importing)
  {
  }

  lemma PingChanges(n: Node, h: Header, j: Slot, x: NodeId, y: NodeId)
    requires n.me in n.peers && Changes(n, ReceivePing(n, h), j, x, y)
    ensures EpochOf(ReceivePing(n, h), x) < EpochOf(ReceivePing(n, h), y)
  {
    hide ClaimSlots;
    var n1 := SwitchRole(SeeEpochs(n, h), h);
    assert Changes(n, n1, j, x, y) ==> false;
    ClaimChanges(n1, h.src, h.configEpoch, h.slots, j);
    var n2 := ClaimSlots(n1, h.src, h.configEpoch, h.slots);
    assert Changes(n1, n2, j, x, y);
    assert h.configEpoch <= EpochOf(n1, h.src);
    assert x == n.me ==> EpochOf(n2, x) != h.configEpoch;
  }

  lemma UpdateChanges(n: Node, m: Msg, j: Slot, x: NodeId, y: NodeId)
    requires m.Update? && n.me in n.peers && Changes(n, ReceiveUpdate(n, m), j, x, y)
    ensures EpochOf(ReceiveUpdate(n, m), x) < EpochOf(ReceiveUpdate(n, m), y)
  {
    hide ClaimSlots;
    var n1 := SeeEpochs(n, m.h);
    var n2 := SetPeer(n1, m.about, n1.peers[m.about].(role := Master, configEpoch := m.aboutEpoch));
    ClaimChanges(n2, m.about, m.aboutEpoch, m.aboutSlots, j);
    assert Changes(n2, ClaimSlots(n2, m.about, m.aboutEpoch, m.aboutSlots), j, x, y);
  }

  lemma FailoverChanges(n: Node, e: Env, j: Slot, x: NodeId, y: NodeId)
    requires n.me in n.peers && Changes(n, HandleFailover(n, e).0, j, x, y)
    ensures y == n.me && HandleFailover(n, e).1 == Won && n.peers[n.me].role == Replica(Some(x))
    ensures var n' := HandleFailover(n, e).0;
            EpochOf(n', y) == Max(EpochOf(n, n.me), n.auth.epoch) && EpochOf(n', x) == EpochOf(n, x)
  {
  }

  lemma RequestKeepsOwner(n: Node, h: Header, now: int, nodeTimeout: int)
    ensures ReceiveRequest(n, h, now, nodeTimeout).0.owner == n.owner && ReceiveAck(n, h).owner == n.owner
  {
    hide GrantsVote;
  }

  lemma BumpKeepsOwner(n: Node)
    requires n.me in n.peers
    ensures Bump(n).0.owner == n.owner
  {
    hide MaxEpoch;
  }

  lemma DeliveryChanges(s: System, step: Step, id: NodeId, j: Slot, x: NodeId, y: NodeId)
    requires WellFormed(s) && Enabled(s, step) && step.Deliver? && id in s.nodes && id in Next(s, step).nodes
    requires Changes(s.nodes[id], Next(s, step).nodes[id], j, x, y)
    ensures EpochOf(Next(s, step).nodes[id], x) < EpochOf(Next(s, step).nodes[id], y)
  {
    hide ReceivePing, ReceiveUpdate, ReceiveRequest, ReceiveAck, BuildHeader, CountsAck, EpochOf;
    var m, n := s.net[step.packet], s.nodes[id];
    if id == m.h.dst {
      match m {
        case Ping(h) => PingChanges(n, h, j, x, y);
        case Update(_, _, _, _) => UpdateChanges(n, m, j, x, y);
        case AuthRequest(h) => RequestKeepsOwner(n, h, step.now, step.nodeTimeout);
        case AuthAck(h) => RequestKeepsOwner(n, h, 0, 0);
      }
    }
  }

  /** Whenever a step changes the owner a node knows for an assigned slot, the new owner's config epoch, as
      the node then knows it, is above the old owner's.  The one exception is the winner of an election,
      which takes its master's slots by itself: there it holds exactly if the master's epoch, which may
      have risen since the votes were asked for, is below the epoch the winner takes. */
  lemma OwnersChangeUpward(s: System, step: Step, id: NodeId, j: Slot, x: NodeId, y: NodeId)
    requires WellFormed(s) && Enabled(s, step) && id in s.nodes && id in Next(s, step).nodes
    requires Changes(s.nodes[id], Next(s, step).nodes[id], j, x, y)
    ensures var n, n' := s.nodes[id], Next(s, step).nodes[id];
            && (!step.Failover? ==> EpochOf(n', x) < EpochOf(n', y))
            && (step.Failover? ==> y == id == step.who && n.peers[id].role == Replica(Some(x))
                                   && (EpochOf(n', x) < EpochOf(n', y)
                                       <==> EpochOf(n, x) < Max(EpochOf(n, id), n.auth.epoch)))
  {
    hide Next, EpochOf;
    match step {
      case Deliver(_, _, _, _) => DeliveryChanges(s, step, id, j, x, y);
      case Failover(who, env, _) =>
        FailoverNode(s, step, id);
        FailoverChanges(s.nodes[id], env, j, x, y);
      case _ => OtherStepsKeepOwner(s, step, id);
    }
  }

  lemma FailoverNode(s: System, step: Step, id: NodeId)
    requires WellFormed(s) && Enabled(s, step) && step.Failover? && id in s.nodes && id in Next(s, step).nodes
    ensures Next(s, step).nodes[id] == if id == step.who then HandleFailover(s.nodes[id], step.env).0 else s.nodes[id]
  {
    hide HandleFailover, BuildHeader;
  }

  lemma OtherStepsKeepOwner(s: System, step: Step, id: NodeId)
    requires WellFormed(s) && Enabled(s, step) && !step.Failover? && !step.Deliver? && id in s.nodes
             && id in Next(s, step).nodes
    ensures Next(s, step).nodes[id].owner == s.nodes[id].owner
  {
    hide Bump, UpdateState, SetFailed, BuildHeader;
    match step {
      case BumpEpoch(who) => BumpKeepsOwner(s.nodes[who]);
      case RefreshState(who) => LocalKeepsOwner(s.nodes[who], 0, false);
      case MarkFailed(who, about, failed) => LocalKeepsOwner(s.nodes[who], about, failed);
      case _ =>
    }
  }

  lemma LocalKeepsOwner(n: Node, about: NodeId, failed: bool)
    ensures UpdateState(n).owner == n.owner && SetFailed(n, about, failed).owner == n.owner
  {
  }

  /** What becomes of the exception: a ping from the old master takes a slot back in the winner's own table
      exactly if it announces a greater epoch than the winner took. */
  lemma TakeOverUndone(n: Node, e: Env, h: Header, j: Slot, x: NodeId)
    requires n.me in n.peers && Changes(n, HandleFailover(n, e).0, j, x, n.me) && x in n.peers
    requires h.src == x && h.slaveof.None? && j in h.slots && j !in n.importing
    ensures var n' := HandleFailover(n, e).0;
            && n'.me in n'.peers && j in ReceivePing(n', h).owner
            && (ReceivePing(n', h).owner[j] == x <==> Max(EpochOf(n, n.me), n.auth.epoch) < h.configEpoch)
  {
    FailoverChanges(n, e, j, x, n.me);
    var n' := HandleFailover(n, e).0;
    assert n'.me == n.me && x != n.me && n'.importing == n.importing && n'.peers.Keys == n.peers.Keys;
    PingClaims(n', h);
  }

  // ---------- replicas serve nothing ----------

  lemma ClaimKeepsIdle(n: Node, claimant: NodeId, epoch: nat, slots: set<Slot>)
    requires IdleReplica(n)
    ensures IdleReplica(ClaimSlots(n, claimant, epoch, slots))
  {
    var n' := ClaimSlots(n, claimant, epoch, slots);
    if claimant != n.me && n'.me in n'.owner.Values {
      var j :| j in n'.owner && n'.owner[j] == n.me;
      assert n.owner[j] == n.me && n.me in n.owner.Values;
    }
  }

  /** What a node learns about others does not make it serve. */
  lemma SameSelfKeepsIdle(n: Node, n': Node)
    requires IdleReplica(n) && n'.me == n.me && n'.me in n'.peers && n'.peers[n.me].role == n.peers[n.me].role
    requires forall j | j in n'.owner :: j in n.owner && n'.owner[j] == n.owner[j]
    ensures IdleReplica(n')
  {
    if n'.me in n'.owner.Values {
      var j :| j in n'.owner && n'.owner[j] == n.me;
      assert n.owner[j] == n.me && n.me in n.owner.Values;
    }
  }

  lemma PingKeepsIdle(n: Node, h: Header)
    requires IdleReplica(n)
    ensures IdleReplica(ReceivePing(n, h))
  {
    hide ClaimSlots;
    if h.src in n.peers {
      var n1 := SwitchRole(SeeEpochs(n, h), h);
      if h.src == n.me {
        OwnPingKeepsIdle(n, h);
      } else {
        SameSelfKeepsIdle(n, n1);
      }
      ClaimKeepsIdle(n1, h.src, h.configEpoch, h.slots);
      var n2 := if IsMaster(n1, h.src) && SlotsOf(n1, h.src) != h.slots
                then ClaimSlots(n1, h.src, h.configEpoch, h.slots) else n1;
      SameSelfKeepsIdle(n2, ResolveCollision(n2, h.src));
    }
  }

  lemma OwnPingKeepsIdle(n: Node, h: Header)
    requires IdleReplica(n) && h.src == n.me
    ensures IdleReplica(SwitchRole(SeeEpochs(n, h), h))
  {
    var n1 := SwitchRole(SeeEpochs(n, h), h);
    if n1.me in n1.owner.Values {
      var j :| j in n1.owner && n1.owner[j] == n.me;
      assert n.owner[j] == n.me && n.me in n.owner.Values;
    }
  }

  lemma UpdateKeepsIdle(n: Node, m: Msg)
    requires m.Update? && IdleReplica(n)
    ensures IdleReplica(ReceiveUpdate(n, m))
  {
    hide ClaimSlots;
    var n1 := SeeEpochs(n, m.h);
    SameSelfKeepsIdle(n, n1);
    if m.h.src in n.peers && m.about in n1.peers {
      var n2 := SetPeer(n1, m.about, n1.peers[m.about].(role := Master, configEpoch := m.aboutEpoch));
      if m.about != n.me { SameSelfKeepsIdle(n1, n2); }
      ClaimKeepsIdle(n2, m.about, m.aboutEpoch, m.aboutSlots);
    }
  }

  lemma VoteKeepsIdle(n: Node, h: Header, now: int, nodeTimeout: int)
    requires IdleReplica(n)
    ensures IdleReplica(ReceiveRequest(n, h, now, nodeTimeout).0) && IdleReplica(ReceiveAck(n, h))
  {
    hide GrantsVote;
    SameSelfKeepsIdle(n, ReceiveRequest(n, h, now, nodeTimeout).0);
    SameSelfKeepsIdle(n, ReceiveAck(n, h));
  }

  lemma FailoverKeepsIdle(n: Node, e: Env)
    requires IdleReplica(n)
    ensures IdleReplica(HandleFailover(n, e).0)
  {
    hide MayFailover;
    var (n', action) := HandleFailover(n, e);
    if !action.Won? { SameSelfKeepsIdle(n, n'); }
  }

  ghost predicate AllIdle(s: System) { forall id | id in s.nodes :: IdleReplica(s.nodes[id]) }

  lemma DeliveryKeepsIdle(s: System, step: Step)
    requires WellFormed(s) && Enabled(s, step) && step.Deliver? && AllIdle(s)
    ensures AllIdle(Next(s, step))
  {
    hide ReceivePing, ReceiveUpdate, ReceiveRequest, ReceiveAck, BuildHeader, CountsAck, IdleReplica;
    var m := s.net[step.packet];
    var n := s.nodes[m.h.dst];
    match m {
      case Ping(h) => PingKeepsIdle(n, h);
      case Update(_, _, _, _) => UpdateKeepsIdle(n, m);
      case AuthRequest(h) => VoteKeepsIdle(n, h, step.now, step.nodeTimeout);
      case AuthAck(h) => VoteKeepsIdle(n, h, 0, 0);
    }
  }

  lemma LocalKeepsIdle(n: Node, about: NodeId, failed: bool)
    requires IdleReplica(n)
    ensures IdleReplica(Bump(n).0) && IdleReplica(UpdateState(n)) && IdleReplica(SetFailed(n, about, failed))
  {
    hide MaxEpoch, Electorate;
    SameSelfKeepsIdle(n, Bump(n).0);
    SameSelfKeepsIdle(n, SetFailed(n, about, failed));
  }

  lemma StepKeepsIdle(s: System, step: Step)
    requires WellFormed(s) && Enabled(s, step) && AllIdle(s)
    ensures AllIdle(Next(s, step))
  {
    hide HandleFailover, DeliverMsg, Bump, UpdateState, SetFailed, BuildHeader, IdleReplica;
    match step {
      case Deliver(_, _, _, _) => DeliveryKeepsIdle(s, step);
      case Failover(who, env, _) => FailoverKeepsIdle(s.nodes[who], env);
      case BumpEpoch(who) => LocalKeepsIdle(s.nodes[who], 0, false);
      case RefreshState(who) => LocalKeepsIdle(s.nodes[who], 0, false);
      case MarkFailed(who, about, failed) => LocalKeepsIdle(s.nodes[who], about, failed);
      case _ =>
    }
  }

  /** If no replica starts out with slots of its own, none ever has any: what clusterSetMaster asserts. */
  lemma {:induction false} ReplicasServeNothing(run: seq<System>, steps: seq<Step>, i: nat)
    requires IsRun(run, steps) && i < |run| && AllIdle(run[0])
    ensures AllIdle(run[i])
  {
    hide Next, Enabled, WellFormed, AllIdle, Init;
    if i > 0 {
      ReplicasServeNothing(run, steps, i - 1);
      assert IsStep(run[i - 1], steps[i - 1], run[i]);
      StepKeepsIdle(run[i - 1], steps[i - 1]);
    }
  }

  // ---------- pings and claims ----------

  /** A master's ping does to the slot table exactly what the claim rule says: the test that skips
      the scan when the announced bitmap is already known changes nothing. */
  lemma PingClaims(n: Node, h: Header)
    requires n.me in n.peers && h.src in n.peers && h.src != n.me && h.slaveof.None?
    ensures ReceivePing(n, h).owner == ClaimedOwner(SeeEpochs(n, h), h.src, h.configEpoch, h.slots)
  {
    var n0 := SeeEpochs(n, h);
    var n1 := SwitchRole(n0, h);
    ClaimIgnoresRole(n0, n1, h.src, h.configEpoch, h.slots);
    if SlotsOf(n1, h.src) == h.slots {
      forall j | j in h.slots ensures j in n1.owner && n1.owner[j] == h.src { assert j in SlotsOf(n1, h.src); }
      assert ClaimedOwner(n1, h.src, h.configEpoch, h.slots) == n1.owner;
    }
  }

  lemma ClaimIgnoresRole(n: Node, n': Node, claimant: NodeId, epoch: nat, slots: set<Slot>)
    requires n'.owner == n.owner && n'.importing == n.importing
    requires forall id :: EpochOf(n', id) == EpochOf(n, id)
    ensures ClaimedOwner(n', claimant, epoch, slots) == ClaimedOwner(n, claimant, epoch, slots)
  {
    assert forall j :: Rebinds(n', claimant, epoch, slots, j) == Rebinds(n, claimant, epoch, slots, j);
  }

  // ---------- one claim per remote master, in some order ----------

  ghost function ReceiveAll(n: Node, hs: seq<Header>): (n': Node)
    requires n.me in n.peers && forall h | h in hs :: h.src in n.peers
    ensures n'.me == n.me && n.peers.Keys <= n'.peers.Keys
  {
    if hs == [] then n
    else
      var n1 := ReceiveAll(n, hs[..|hs| - 1]);
      ReceivePing(n1, hs[|hs| - 1])
  }

  /** Announcements of remote masters, each newer than what n knows, no two from the same master
      or with the same config epoch. */
  ghost predicate Claims(n: Node, hs: seq<Header>) {
    && n.me in n.peers
    && (forall i | 0 <= i < |hs| ::
          && hs[i].src in n.peers && hs[i].src != n.me && hs[i].slaveof.None?
          && EpochOf(n, hs[i].src) <= hs[i].configEpoch)
    && (forall i, j | 0 <= i < j < |hs| ::
          hs[i].src != hs[j].src && hs[i].configEpoch != hs[j].configEpoch)
  }

  /** The announcement that claims slot j with the greatest config epoch. */
  ghost predicate Best(hs: seq<Header>, j: Slot, h: Header) {
    && h in hs && j in h.slots
    && forall i | 0 <= i < |hs| && j in hs[i].slots :: hs[i].configEpoch <= h.configEpoch
  }

  /** The table after the announcements, and what it knows of the epochs. */
  ghost predicate Settled(n: Node, hs: seq<Header>, n': Node) {
    && n'.importing == {}
    && (forall i | 0 <= i < |hs| :: EpochOf(n', hs[i].src) == hs[i].configEpoch)
    && (forall j | j in n'.owner :: exists h | h in hs :: Best(hs, j, h) && n'.owner[j] == h.src)
    && (forall i | 0 <= i < |hs| :: hs[i].slots <= n'.owner.Keys)
    && (forall id | id != n.me && (forall i | 0 <= i < |hs| :: hs[i].src != id) :: EpochOf(n', id) == EpochOf(n, id))
  }

  lemma PingEpochs(n: Node, h: Header)
    requires n.me in n.peers && h.src in n.peers && h.src != n.me && h.slaveof.None?
    ensures n.importing == {} ==> ReceivePing(n, h).importing == {}
    ensures forall id | id != n.me :: EpochOf(ReceivePing(n, h), id)
              == if id == h.src then Max(EpochOf(n, id), h.configEpoch) else EpochOf(n, id)
  {
  }

  /** The new claim takes over from the old best exactly when it is better. */
  lemma BestStep(hs: seq<Header>, h: Header, j: Slot, b: Header)
    requires Best(hs, j, b) && (j in h.slots ==> h.configEpoch <= b.configEpoch)
    ensures Best(hs + [h], j, b)
  {
  }

  lemma BestNew(hs: seq<Header>, h: Header, j: Slot)
    requires j in h.slots
    requires forall i | 0 <= i < |hs| && j in hs[i].slots :: hs[i].configEpoch <= h.configEpoch
    ensures Best(hs + [h], j, h)
  {
    assert (hs + [h])[|hs|] == h;
  }

  lemma OwnerStep(n: Node, hs: seq<Header>, n1: Node, h: Header, j: Slot)
    requires Settled(n, hs, n1) && n1.me in n1.peers
    requires h.src in n1.peers && forall i | 0 <= i < |hs| :: hs[i].src != h.src
    requires j in ClaimedOwner(SeeEpochs(n1, h), h.src, h.configEpoch, h.slots)
    ensures exists b | b in hs + [h] :: Best(hs + [h], j, b)
              && ClaimedOwner(SeeEpochs(n1, h), h.src, h.configEpoch, h.slots)[j] == b.src
  {
    var n2 := SeeEpochs(n1, h);
    if j in n1.owner {
      var b :| b in hs && Best(hs, j, b) && n1.owner[j] == b.src;
      assert EpochOf(n2, b.src) == EpochOf(n1, b.src) == b.configEpoch;
      if Rebinds(n2, h.src, h.configEpoch, h.slots, j) {
        BestNew(hs, h, j);
      } else {
        BestStep(hs, h, j, b);
        assert b in hs + [h];
      }
    } else {
      BestNew(hs, h, j);
    }
  }

  lemma SettledStep(n: Node, hs: seq<Header>, n1: Node, h: Header)
    requires Claims(n, hs + [h]) && Settled(n, hs, n1)
    requires n1.me == n.me && n.peers.Keys <= n1.peers.Keys
    ensures Settled(n, hs + [h], ReceivePing(n1, h))
  {
    hide ReceivePing, Rebinds;
    var all := hs + [h];
    assert all[|hs|] == h;
    assert forall i | 0 <= i < |hs| :: all[i] == hs[i] && hs[i].src != h.src;
    PingClaims(n1, h);
    PingEpochs(n1, h);
    assert EpochOf(n1, h.src) <= h.configEpoch;
    var n2 := ReceivePing(n1, h);
    forall j | j in n2.owner ensures exists b | b in all :: Best(all, j, b) && n2.owner[j] == b.src {
      OwnerStep(n, hs, n1, h, j);
    }
    forall i | 0 <= i < |all| ensures all[i].slots <= n2.owner.Keys { ClaimedKeys(n1, h); }
    forall id | id != n.me && (forall i | 0 <= i < |all| :: all[i].src != id)
      ensures EpochOf(n2, id) == EpochOf(n, id)
    {
      assert all[|hs|].src != id;
      assert forall i | 0 <= i < |hs| :: all[i].src != id;
    }
  }

  lemma ClaimedKeys(n: Node, h: Header)
    requires n.importing == {}
    ensures ClaimedOwner(SeeEpochs(n, h), h.src, h.configEpoch, h.slots).Keys == n.owner.Keys + h.slots
  {
  }

  lemma {:induction false} ClaimsSettle(n: Node, hs: seq<Header>)
    requires Claims(n, hs) && n.owner == map[] && n.importing == {}
    ensures Settled(n, hs, ReceiveAll(n, hs))
  {
    hide Settled;
    if hs == [] {
      SettledAtStart(n);
    } else {
      var init, h := hs[..|hs| - 1], hs[|hs| - 1];
      assert hs == init + [h];
      ClaimsSettle(n, init);
      SettledStep(n, init, ReceiveAll(n, init), h);
    }
  }

  lemma SettledAtStart(n: Node)
    requires n.owner == map[] && n.importing == {}
    ensures Settled(n, [], n)
  {
  }

  /** From an unassigned table, each claimed slot ends with the claimant of greatest config epoch. */
  lemma GreatestEpochOwns(n: Node, hs: seq<Header>, j: Slot)
    requires Claims(n, hs) && n.owner == map[] && n.importing == {}
    ensures j in ReceiveAll(n, hs).owner <==> exists i :: 0 <= i < |hs| && j in hs[i].slots
    ensures forall h | Best(hs, j, h) :: j in ReceiveAll(n, hs).owner && ReceiveAll(n, hs).owner[j] == h.src
  {
    hide ReceiveAll;
    ClaimsSettle(n, hs);
    var n' := ReceiveAll(n, hs);
    if j in n'.owner {
      var b :| b in hs && Best(hs, j, b) && n'.owner[j] == b.src;
      forall h | Best(hs, j, h) ensures n'.owner[j] == h.src { BestIsUnique(n, hs, j, b, h); }
    }
  }

  lemma BestIsUnique(n: Node, hs: seq<Header>, j: Slot, a: Header, b: Header)
    requires Claims(n, hs) && Best(hs, j, a) && Best(hs, j, b)
    ensures a == b
  {
    var i :| 0 <= i < |hs| && hs[i] == a;
    var k :| 0 <= k < |hs| && hs[k] == b;
    assert hs[i].configEpoch == hs[k].configEpoch;
  }

  /** The owners do not depend on the order in which the announcements arrive. */
  lemma AnyOrderSameOwners(n: Node, hs: seq<Header>, hs': seq<Header>)
    requires Claims(n, hs) && Claims(n, hs') && n.owner == map[] && n.importing == {}
    requires forall h :: h in hs <==> h in hs'
    ensures ReceiveAll(n, hs).owner == ReceiveAll(n, hs').owner
  {
    hide ReceiveAll;
    var a, b := ReceiveAll(n, hs).owner, ReceiveAll(n, hs').owner;
    forall j ensures j in a <==> j in b {
      GreatestEpochOwns(n, hs, j);
      GreatestEpochOwns(n, hs', j);
      assert (exists i :: 0 <= i < |hs| && j in hs[i].slots) <==> (exists h | h in hs :: j in h.slots);
      assert (exists i :: 0 <= i < |hs'| && j in hs'[i].slots) <==> (exists h | h in hs' :: j in h.slots);
    }
    forall j | j in a ensures a[j] == b[j] {
      ClaimsSettle(n, hs);
      var h :| h in hs && Best(hs, j, h) && a[j] == h.src;
      forall i | 0 <= i < |hs'| && j in hs'[i].slots ensures hs'[i].configEpoch <= h.configEpoch {
        assert hs'[i] in hs;
      }
      assert Best(hs', j, h);
      GreatestEpochOwns(n, hs', j);
    }
  }
}
